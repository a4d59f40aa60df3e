/** Reading a file back: the recursive reader and the plain list of blocks it must agree with. */
module Loading {
  import opened Bytes
  import opened Geometry
  import opened Inodes
  import opened BlockTree
  import opened Volumes

  /** The 128 pointers of a block. */
  function Pointees(d: Disk, b: nat): (p: seq<u32>)
    requires b < 8192
    ensures |p| == 128 && forall i :: 0 <= i < 128 ==> p[i] == Ptr(d[b], i)
  {
    seq<u32>(128, i requires 0 <= i < 128 => Ptr(d[b], i))
  }

  /** Every block reachable from these pointers exists. */
  ghost predicate OnDisk(d: Disk, locs: seq<u32>, depth: nat)
    decreases depth
  {
    forall i :: 0 <= i < |locs| && locs[i] != 0 ==>
      locs[i] < 8192 && (depth > 0 ==> OnDisk(d, Pointees(d, locs[i]), depth - 1))
  }

  /** The data blocks below a list of pointers, left to right; zero pointers are skipped. */
  ghost function Leaves(d: Disk, locs: seq<u32>, depth: nat): (r: seq<nat>)
    requires OnDisk(d, locs, depth)
    decreases depth, |locs|
  {
    if locs == [] then []
    else
      (if locs[0] == 0 then [] else if depth == 0 then [locs[0]] else Leaves(d, Pointees(d, locs[0]), depth - 1))
      + Leaves(d, locs[1..], depth)
  }

  lemma {:induction false} LeavesAppend(d: Disk, xs: seq<u32>, ys: seq<u32>, depth: nat)
    requires OnDisk(d, xs, depth) && OnDisk(d, ys, depth)
    ensures OnDisk(d, xs + ys, depth)
    ensures Leaves(d, xs + ys, depth) == Leaves(d, xs, depth) + Leaves(d, ys, depth)
    decreases |xs|
  {
    hide OnDisk;
    OnDiskAppend(d, xs, ys, depth);
    if xs == [] {
      assert xs + ys == ys;
    } else {
      OnDiskTail(d, xs, depth);
      LeavesAppend(d, xs[1..], ys, depth);
      assert (xs + ys)[1..] == xs[1..] + ys;
    }
  }

  lemma OnDiskTail(d: Disk, xs: seq<u32>, depth: nat)
    requires OnDisk(d, xs, depth) && xs != []
    ensures OnDisk(d, xs[1..], depth)
  {
  }

  lemma OnDiskOne(d: Disk, b: u32, depth: nat)
    requires b != 0 ==> b < 8192 && (depth > 0 ==> OnDisk(d, Pointees(d, b), depth - 1))
    ensures OnDisk(d, [b], depth)
  {
  }

  lemma OnDiskAppend(d: Disk, xs: seq<u32>, ys: seq<u32>, depth: nat)
    requires OnDisk(d, xs, depth) && OnDisk(d, ys, depth)
    ensures OnDisk(d, xs + ys, depth)
  {
    var z := xs + ys;
    forall i | 0 <= i < |z| && z[i] != 0
      ensures z[i] < 8192 && (depth > 0 ==> OnDisk(d, Pointees(d, z[i]), depth - 1))
    {
      if i < |xs| { assert z[i] == xs[i]; } else { assert z[i] == ys[i - |xs|]; }
    }
  }

  /** Byte j of the data blocks laid end to end. */
  function ByteOf(d: Disk, data: seq<nat>, j: nat): (x: byte)
    requires forall i :: 0 <= i < |data| ==> data[i] < 8192
    requires j < 512 * |data|
  {
    d[data[j / 512]][j % 512]
  }

  lemma {:induction false} LeavesOnDisk(d: Disk, locs: seq<u32>, depth: nat)
    requires OnDisk(d, locs, depth)
    ensures forall i :: 0 <= i < |Leaves(d, locs, depth)| ==> Leaves(d, locs, depth)[i] < 8192
    decreases depth, |locs|
  {
    if locs != [] {
      LeavesOnDisk(d, locs[1..], depth);
      if locs[0] != 0 && depth > 0 {
        LeavesOnDisk(d, Pointees(d, locs[0]), depth - 1);
      }
    }
  }

  /** buf[off..off + total] holds the first total bytes of the data blocks. */
  ghost predicate Loaded(d: Disk, data: seq<nat>, s: seq<byte>, off: nat, total: nat)
  {
    && (forall i :: 0 <= i < |data| ==> data[i] < 8192)
    && total <= 512 * |data| && off + total <= |s|
    && forall j: nat :: j < total ==> s[off + j] == ByteOf(d, data, j)
  }

  function Min(a: nat, b: nat): (m: nat)
  {
    if a < b then a else b
  }

  lemma LeavesOne(d: Disk, b: u32, depth: nat)
    requires b != 0 && OnDisk(d, [b], depth)
    ensures b < 8192
    ensures depth == 0 ==> Leaves(d, [b], 0) == [b]
    ensures depth > 0 ==>
      OnDisk(d, Pointees(d, b), depth - 1) && Leaves(d, [b], depth) == Leaves(d, Pointees(d, b), depth - 1)
  {
    assert [b][0] == b;
    assert [b][1..] == [];
  }

  lemma LeavesPrefix(d: Disk, p: seq<u32>, i: nat, depth: nat)
    requires OnDisk(d, p, depth) && i < |p|
    ensures OnDisk(d, p[..i], depth) && OnDisk(d, [p[i]], depth) && OnDisk(d, p[..i + 1], depth)
    ensures p[i] == 0 ==> Leaves(d, p[..i + 1], depth) == Leaves(d, p[..i], depth)
    ensures p[i] != 0 ==> Leaves(d, p[..i + 1], depth) == Leaves(d, p[..i], depth) + Leaves(d, [p[i]], depth)
  {
    OnDiskOne(d, p[i], depth);
    assert p[..i + 1] == p[..i] + [p[i]];
    LeavesAppend(d, p[..i], [p[i]], depth);
    assert [p[i]][1..] == [];
  }

  /** load_block_data */
  method LoadBlockData(fs: Volume, block: u32, depth: nat, buf: array<byte>, off: nat, size: nat) returns (total: nat)
    requires block != 0 && OnDisk(fs.blocks, [block], depth) && off + size <= buf.Length
    modifies buf
    ensures total == Min(size, 512 * |Leaves(fs.blocks, [block], depth)|)
    ensures Loaded(fs.blocks, Leaves(fs.blocks, [block], depth), buf[..], off, total)
    ensures forall j :: 0 <= j < buf.Length && !(off <= j < off + total) ==> buf[j] == old(buf[j])
    decreases depth, 0
  {
    hide Ptr, OnDisk, Leaves;
    total := 0;
    ghost var d := fs.blocks;
    LeavesOnDisk(d, [block], depth);
    LeavesOne(d, block, depth);
    if size == 0 {
      return;
    }
    if depth == 0 {
      total := Min(BLOCK_SIZE, size);
      var src := fs.blocks[block];
      forall j | 0 <= j < total {
        buf[off + j] := src[j];
      }
      assert forall j: nat :: j < total ==> buf[..][off + j] == src[j];
    } else {
      total := LoadPointees(fs, Pointees(fs.blocks, block), depth - 1, buf, off, size);
    }
  }

  /** The loop of load_block_data over the pointers of an indirect block. */
  method LoadPointees(fs: Volume, ptrs: seq<u32>, depth: nat, buf: array<byte>, off: nat, size: nat)
      returns (total: nat)
    requires OnDisk(fs.blocks, ptrs, depth) && off + size <= buf.Length
    modifies buf
    ensures total == Min(size, 512 * |Leaves(fs.blocks, ptrs, depth)|)
    ensures Loaded(fs.blocks, Leaves(fs.blocks, ptrs, depth), buf[..], off, total)
    ensures forall j :: 0 <= j < buf.Length && !(off <= j < off + total) ==> buf[j] == old(buf[j])
    decreases depth, 1
  {
    hide Ptr, OnDisk, Leaves, Loaded;
    total := 0;
    ghost var d, before := fs.blocks, buf[..];
    LeavesNone(d, ptrs, depth, before, off);
    for i := 0 to |ptrs|
      invariant OnDisk(d, ptrs[..i], depth)
      invariant total == Min(size, 512 * |Leaves(d, ptrs[..i], depth)|)
      invariant Loaded(d, Leaves(d, ptrs[..i], depth), buf[..], off, total)
      invariant forall j :: 0 <= j < buf.Length && !(off <= j < off + total) ==> buf[j] == before[j]
    {
      LeavesPrefix(d, ptrs, i, depth);
      if ptrs[i] != 0 {
        ghost var mid := buf[..];
        var n := LoadBlockData(fs, ptrs[i], depth, buf, off + total, size - total);
        LoadedAppend(d, Leaves(d, ptrs[..i], depth), Leaves(d, [ptrs[i]], depth), mid, buf[..], off, total, n, size);
        total := total + n;
      }
    }
    assert ptrs[..|ptrs|] == ptrs;
  }

  lemma LeavesNone(d: Disk, ptrs: seq<u32>, depth: nat, s: seq<byte>, off: nat)
    requires off <= |s|
    ensures OnDisk(d, ptrs[..0], depth) && Leaves(d, ptrs[..0], depth) == []
    ensures Loaded(d, [], s, off, 0)
  {
  }

  lemma LoadedAppend(d: Disk, xs: seq<nat>, ys: seq<nat>, s: seq<byte>, r: seq<byte>, off: nat, total: nat, n: nat,
                     size: nat)
    requires |s| == |r| && total == Min(size, 512 * |xs|) && n == Min(size - total, 512 * |ys|)
    requires Loaded(d, xs, s, off, total) && Loaded(d, ys, r, off + total, n)
    requires forall j :: 0 <= j < |s| && !(off + total <= j < off + total + n) ==> r[j] == s[j]
    ensures Loaded(d, xs + ys, r, off, total + n)
    ensures total + n == Min(size, 512 * |xs + ys|)
  {
    var z := xs + ys;
    forall j: nat | j < total + n
      ensures r[off + j] == ByteOf(d, z, j)
    {
      if j < total {
        assert r[off + j] == s[off + j] == ByteOf(d, xs, j);
        assert z[j / 512] == xs[j / 512];
      } else {
        assert total == 512 * |xs|;
        var i := j - total;
        assert r[off + total + i] == ByteOf(d, ys, i);
        assert j / 512 == |xs| + i / 512 && j % 512 == i % 512;
        assert z[j / 512] == ys[i / 512];
      }
    }
  }

  /** A left-packed list of 128 pointers at the lowest level is the list of its nonzero entries. */
  lemma {:induction false} PackedLeaves(d: Disk, p: seq<u32>, xs: seq<nat>, i: nat)
    requires |p| == 128 && |xs| <= 128 && i <= 128
    requires forall j :: 0 <= j < 128 ==> p[j] == if j < |xs| then xs[j] else 0
    requires forall j :: 0 <= j < |xs| ==> 0 < xs[j] < 8192
    ensures OnDisk(d, p, 0)
    ensures OnDisk(d, p[..i], 0) && Leaves(d, p[..i], 0) == xs[..Min(i, |xs|)]
  {
    if i > 0 {
      PackedLeaves(d, p, xs, i - 1);
      LeavesPrefix(d, p, i - 1, 0);
      if p[i - 1] != 0 {
        LeavesOne(d, p[i - 1], 0);
      }
    }
  }

  /** The part of the file below the singly indirect block. */
  lemma SingleLeaves(d: Disk, t: Tree)
    requires TreeOk(t) && PtrsOk(d, t) && |t.data| > 12
    ensures 0 < t.single < 8192 && OnDisk(d, [t.single], 1)
    ensures Leaves(d, [t.single], 1) == t.data[12..Min(140, |t.data|)]
  {
    hide Ptr;
    var hi := Min(140, |t.data|);
    var xs := t.data[12..hi];
    TreeRange(t);
    var p := Pointees(d, t.single);
    PackedLeaves(d, p, xs, 128);
    assert p[..128] == p;
    assert xs[..Min(128, |xs|)] == xs;
    assert [t.single][1..] == [];
  }

  lemma TreeRange(t: Tree)
    requires TreeOk(t)
    ensures forall i :: 0 <= i < |t.data| ==> 0 < t.data[i] < 8192
    ensures forall i :: 0 <= i < |t.leaves| ==> 0 < t.leaves[i] < 8192
    ensures |t.data| > 12 ==> 0 < t.single < 8192
    ensures |t.data| > 140 ==> 0 < t.double < 8192
  {
    assert forall i :: 0 <= i < |t.data| ==> InTree(t, t.data[i]);
    assert forall i :: 0 <= i < |t.leaves| ==> InTree(t, t.leaves[i]);
    assert |t.data| > 12 ==> InTree(t, t.single);
    assert |t.data| > 140 ==> InTree(t, t.double);
  }

  /** Leaf pointer block j lists the data blocks 140 + 128 j onwards. */
  lemma LeafLeaves(d: Disk, t: Tree, j: nat)
    requires TreeOk(t) && PtrsOk(d, t) && j < |t.leaves|
    ensures 0 < t.leaves[j] < 8192 && OnDisk(d, Pointees(d, t.leaves[j]), 0)
    ensures 140 + 128 * j <= |t.data|
    ensures Leaves(d, Pointees(d, t.leaves[j]), 0) == t.data[140 + 128 * j..Min(140 + 128 * (j + 1), |t.data|)]
  {
    hide Ptr;
    var lo := 140 + 128 * j;
    var hi := Min(lo + 128, |t.data|);
    var xs := t.data[lo..hi];
    TreeRange(t);
    assert LeafOk(d, t, j);
    var p := Pointees(d, t.leaves[j]);
    assert forall i :: 0 <= i < 128 ==> p[i] == At(t, lo + i);
    PackedLeaves(d, p, xs, 128);
    assert p[..128] == p;
    assert xs[..Min(128, |xs|)] == xs;
  }

  lemma TopOnDisk(d: Disk, t: Tree)
    requires TreeOk(t) && PtrsOk(d, t) && 140 < |t.data| && |t.leaves| <= 128
    ensures 0 < t.double < 8192 && OnDisk(d, Pointees(d, t.double), 1)
    ensures forall j :: 0 <= j < 128 ==> Pointees(d, t.double)[j] == if j < |t.leaves| then t.leaves[j] else 0
    ensures forall j :: 0 <= j < |t.leaves| ==> t.leaves[j] != 0
    ensures |t.data| <= 140 + 128 * |t.leaves|
  {
    hide Ptr;
    TreeRange(t);
    var p := Pointees(d, t.double);
    forall j | 0 <= j < 128 && p[j] != 0
      ensures p[j] < 8192 && OnDisk(d, Pointees(d, p[j]), 0)
    {
      LeafLeaves(d, t, j);
    }
  }

  /** Entry j of the doubly indirect block contributes its 128 blocks, or what the file has of them. */
  lemma TopEntry(d: Disk, t: Tree, j: nat)
    requires TreeOk(t) && PtrsOk(d, t) && 140 < |t.data| && |t.leaves| <= 128 && j < 128
    ensures t.double < 8192 && OnDisk(d, [Pointees(d, t.double)[j]], 1)
    ensures Leaves(d, [Pointees(d, t.double)[j]], 1) ==
            t.data[Min(140 + 128 * j, |t.data|)..Min(140 + 128 * (j + 1), |t.data|)]
  {
    hide Ptr, OnDisk, PtrsOk, TreeOk, Leaves;
    TopOnDisk(d, t);
    if j < |t.leaves| {
      LeafLeaves(d, t, j);
      OnDiskOne(d, t.leaves[j], 1);
      LeavesOne(d, t.leaves[j], 1);
    } else {
      LeavesZero(d, 1);
    }
  }

  lemma {:induction false} TopLeaves(d: Disk, t: Tree, i: nat)
    requires TreeOk(t) && PtrsOk(d, t) && 140 < |t.data| && |t.leaves| <= 128 && i <= 128
    ensures t.double < 8192 && OnDisk(d, Pointees(d, t.double)[..i], 1)
    ensures Leaves(d, Pointees(d, t.double)[..i], 1) == t.data[140..Min(140 + 128 * i, |t.data|)]
    decreases i
  {
    hide Ptr, OnDisk, PtrsOk, TreeOk, Leaves;
    TopOnDisk(d, t);
    var p := Pointees(d, t.double);
    if i == 0 {
      LeavesNone(d, p, 1, [], 0);
    } else {
      var n := |t.data|;
      TopLeaves(d, t, i - 1);
      TopEntry(d, t, i - 1);
      assert p[..i] == p[..i - 1] + [p[i - 1]];
      LeavesAppend(d, p[..i - 1], [p[i - 1]], 1);
      var m := Min(140 + 128 * (i - 1), n);
      assert t.data[140..m] + t.data[m..Min(140 + 128 * i, n)] == t.data[140..Min(140 + 128 * i, n)];
    }
  }

  /** The part of the file below the doubly indirect block. */
  lemma DoubleLeaves(d: Disk, t: Tree)
    requires TreeOk(t) && PtrsOk(d, t) && |t.data| > 140
    ensures 0 < t.double < 8192 && OnDisk(d, [t.double], 2)
    ensures Leaves(d, [t.double], 2) == t.data[140..]
  {
    hide Ptr;
    TreeBound(t);
    TreeRange(t);
    TopLeaves(d, t, 128);
    var p := Pointees(d, t.double);
    assert p[..128] == p;
    OnDiskOne(d, t.double, 2);
    LeavesOne(d, t.double, 2);
  }

  /**
    The blocks of a file as the recursive pointers give them: the direct ones,
    then what hangs below each indirect pointer.
   */
  ghost function Flatten(d: Disk, node: Inode): (r: seq<nat>)
    requires PointersOnDisk(d, node)
  {
    Leaves(d, node.block[..12], 0) + Leaves(d, [node.block[12]], 1) + Leaves(d, [node.block[13]], 2)
      + Leaves(d, [node.block[14]], 3)
  }

  ghost predicate PointersOnDisk(d: Disk, node: Inode)
  {
    OnDisk(d, node.block[..12], 0) && OnDisk(d, [node.block[12]], 1) && OnDisk(d, [node.block[13]], 2) &&
    OnDisk(d, [node.block[14]], 3)
  }

  lemma LeavesZero(d: Disk, depth: nat)
    ensures OnDisk(d, [0], depth) && Leaves(d, [0], depth) == []
  {
    assert [0][1..] == [];
  }

  lemma DirectLeaves(d: Disk, node: Inode, t: Tree)
    requires TreeOk(t) && Shape(node, t)
    ensures OnDisk(d, node.block[..12], 0)
    ensures Leaves(d, node.block[..12], 0) == t.data[..Min(12, |t.data|)]
  {
    var p := node.block[..12] + seq<u32>(116, _ => 0);
    var xs := t.data[..Min(12, |t.data|)];
    TreeRange(t);
    PackedLeaves(d, p, xs, 12);
    assert p[..12] == node.block[..12];
    assert xs[..Min(12, |xs|)] == xs;
  }

  /** The tree an inode is said to have is exactly what following its pointers yields, in order. */
  lemma FlattenIsData(d: Disk, node: Inode, t: Tree)
    requires TreeOk(t) && Layout(d, node, t)
    ensures PointersOnDisk(d, node) && Flatten(d, node) == t.data
  {
    hide OnDisk, Leaves, PtrsOk;
    var n := |t.data|;
    DirectLeaves(d, node, t);
    LeavesZero(d, 1);
    LeavesZero(d, 2);
    LeavesZero(d, 3);
    if n > 12 { SingleLeaves(d, t); }
    if n > 140 { DoubleLeaves(d, t); }
    assert t.data == t.data[..Min(12, n)] + (if n > 12 then t.data[12..Min(140, n)] else [])
      + (if n > 140 then t.data[140..] else []);
  }

  /** Data blocks lo to hi follow those before lo. */
  lemma LoadedPart(d: Disk, data: seq<nat>, lo: nat, hi: nat, s: seq<byte>, r: seq<byte>, n: nat, size: nat)
    requires lo <= hi <= |data| && 512 * |data| <= size && |s| == |r|
    requires Loaded(d, data[..lo], s, 0, 512 * lo)
    requires n == Min(size - 512 * lo, 512 * (hi - lo)) && Loaded(d, data[lo..hi], r, 512 * lo, n)
    requires forall j :: 0 <= j < |s| && !(512 * lo <= j < 512 * lo + n) ==> r[j] == s[j]
    ensures 512 * lo + n == 512 * hi && Loaded(d, data[..hi], r, 0, 512 * hi)
  {
    hide Loaded;
    LoadedAppend(d, data[..lo], data[lo..hi], s, r, 0, 512 * lo, n, size);
    assert data[..lo] + data[lo..hi] == data[..hi];
  }

  /** First loop of load_inode_data. */
  method LoadDirect(fs: Volume, node: Inode, buf: array<byte>, size: nat, ghost t: Tree)
      returns (total: nat, ended: bool)
    requires TreeOk(t) && Shape(node, t) && node.size <= size <= buf.Length
    modifies buf
    ensures total == 512 * Min(12, |t.data|) && (ended ==> |t.data| < 12)
    ensures Loaded(fs.blocks, t.data[..Min(12, |t.data|)], buf[..], 0, total)
    ensures forall j :: total <= j < buf.Length ==> buf[j] == old(buf[j])
  {
    hide OnDisk, Leaves, Loaded, PtrCount, TreeOk;
    total := 0;
    ghost var d, before := fs.blocks, buf[..];
    TreeRange(t);
    NothingLoaded(d, t.data[..0], before);
    var i := 0;
    while i < 12 && total < size
      invariant 0 <= i <= Min(12, |t.data|) && total == 512 * i
      invariant Loaded(d, t.data[..i], buf[..], 0, total)
      invariant forall j :: total <= j < buf.Length ==> buf[j] == before[j]
    {
      if node.block[i] == 0 {
        return total, true;
      }
      OnDiskOne(d, node.block[i], 0);
      LeavesOne(d, node.block[i], 0);
      ghost var mid := buf[..];
      var r := LoadBlockData(fs, node.block[i], 0, buf, total, size - total);
      assert t.data[i..i + 1] == [t.data[i]];
      LoadedPart(d, t.data, i, i + 1, mid, buf[..], r, size);
      total := total + r;
      i := i + 1;
    }
    ended := false;
  }

  /** load_inode_data: nothing happens when the buffer is too small, otherwise the whole file arrives in order. */
  method LoadInodeData(fs: Volume, node: Inode, buf: array<byte>, size: nat, ghost t: Tree)
    requires TreeOk(t) && Layout(fs.blocks, node, t) && size <= buf.Length
    modifies buf
    ensures node.size > size ==> buf[..] == old(buf[..])
    ensures node.size <= size ==> Loaded(fs.blocks, t.data, buf[..], 0, 512 * |t.data|)
    ensures forall j :: node.size <= j < buf.Length ==> buf[j] == old(buf[j])
  {
    hide OnDisk, Leaves, PtrsOk, Loaded, PtrCount, TreeOk;
    ghost var d, n := fs.blocks, |t.data|;
    TreeRange(t);
    if node.size > size || node.size == 0 {
      NothingLoaded(d, t.data, buf[..]);
      return;
    }
    assert t.data[..n] == t.data;
    SingleAbsent(t);
    var total, ended := LoadDirect(fs, node, buf, size, t);
    if ended {
      return;
    }
    if node.block[12] != 0 && total < size {
      SingleLeaves(d, t);
      ghost var mid := buf[..];
      var r := LoadBlockData(fs, node.block[12], 1, buf, total, size - total);
      LoadedPart(d, t.data, 12, Min(140, n), mid, buf[..], r, size);
      total := total + r;
    } else {
      return;
    }
    if node.block[13] != 0 && total < size {
      DoubleLeaves(d, t);
      ghost var mid := buf[..];
      var r := LoadBlockData(fs, node.block[13], 2, buf, total, size - total);
      assert t.data[140..n] == t.data[140..];
      LoadedPart(d, t.data, 140, n, mid, buf[..], r, size);
      total := total + r;
    } else {
      return;
    }
    if node.block[14] != 0 && total < size {
      assert false;
    }
  }

  lemma SingleAbsent(t: Tree)
    requires TreeOk(t)
    ensures t.single != 0 <==> |t.data| > 12
    ensures t.double != 0 <==> |t.data| > 140
  {
    TreeRange(t);
  }

  lemma NothingLoaded(d: Disk, data: seq<nat>, s: seq<byte>)
    requires forall i :: 0 <= i < |data| ==> data[i] < 8192
    ensures Loaded(d, data, s, 0, 0)
  {
  }
}
