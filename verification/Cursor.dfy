/** The forward cursor over a file's blocks, which reloads inner pointer blocks only at multiples of 128. */
module Cursor {
  import opened Bytes
  import opened Geometry
  import opened Inodes
  import opened BlockTree
  import opened Loading
  import opened Volumes

  /**
    What the first cached pointer block must be for block `next` to load correctly: below the
    doubly indirect block the cursor relies on what the previous call left there.
   */
  ghost predicate Ready(d: Disk, t: Tree, next: nat, cache: seq<Block>)
  {
    |cache| == 3 &&
    (140 < next < |t.data| && (next - 140) % 128 != 0 && (next - 140) / 128 < |t.leaves| ==>
       t.leaves[(next - 140) / 128] < 8192 && cache[0] == d[t.leaves[(next - 140) / 128]])
  }

  /** load_indirect_block, depths 1 and 2. */
  method LoadIndirectBlock(fs: Volume, reduced: nat, cache: array<Block>, depth: nat, ghost expected: nat)
      returns (block: u32, buf: Block)
    requires cache.Length == 3 && 0 < expected < 8192
    requires depth == 1 ==> reduced < 128 && Ptr(cache[0], reduced) == expected
    requires depth != 1 ==> depth == 2 && reduced < 16384
    requires depth == 2 ==>
      var inner := Ptr(cache[1], reduced / 128);
      inner < 8192 && Ptr(if reduced % 128 == 0 then fs.blocks[inner] else cache[0], reduced % 128) == expected
    modifies cache
    ensures block == expected && buf == fs.blocks[block]
    ensures depth == 1 ==> cache[0] == old(cache[0])
    ensures depth == 2 ==>
      cache[0] == if reduced % 128 == 0 then fs.blocks[Ptr(old(cache[1]), reduced / 128)] else old(cache[0])
    decreases depth
  {
    hide Ptr;
    if depth == 1 {
      block := Ptr(cache[0], reduced);
      buf := fs.blocks[block];
    } else {
      var inner := Ptr(cache[1], reduced / 128);
      if reduced % 128 == 0 {
        cache[0] := fs.blocks[inner];
      }
      block, buf := LoadIndirectBlock(fs, reduced % 128, cache, 1, expected);
    }
  }

  /**
    load_inode_next_block: called for consecutive blocks from the start of the file it
    returns and loads exactly block `block_offset + 1` of the flattened tree.
   */
  method LoadNextBlock(fs: Volume, node: Inode, offset: u32, cache: array<Block>, ghost t: Tree)
      returns (block: u32, buf: Block)
    requires TreeOk(t) && Layout(fs.blocks, node, t)
    requires (offset + 1) % 0x1_0000_0000 < |t.data| && Ready(fs.blocks, t, (offset + 1) % 0x1_0000_0000, cache[..])
    modifies cache
    ensures block == t.data[(offset + 1) % 0x1_0000_0000] && block < 8192 && buf == fs.blocks[block]
    ensures Ready(fs.blocks, t, (offset + 1) % 0x1_0000_0000 + 1, cache[..])
  {
    hide Ptr, IsMeta, PtrCount;
    TreeRange(t);
    TreeBound(t);
    var o: int := offset;
    var next := (o + 1) % 0x1_0000_0000;
    if next < 12 {
      block := node.block[next];
      buf := fs.blocks[block];
    } else if next < 140 {
      cache[0] := fs.blocks[node.block[12]];
      assert Ptr(cache[0], next - 12) == At(t, 12 + (next - 12));
      block, buf := LoadIndirectBlock(fs, next - 12, cache, 1, t.data[next]);
    } else {
      var reduced := next - 140;
      var j := reduced / 128;
      assert LeafOk(fs.blocks, t, j) && next == 140 + 128 * j + reduced % 128;
      cache[1] := fs.blocks[node.block[13]];
      block, buf := LoadIndirectBlock(fs, reduced, cache, 2, t.data[next]);
      if reduced % 128 != 127 {
        assert (reduced + 1) / 128 == j;
      } else {
        assert (reduced + 1) % 128 == 0;
      }
    }
  }
}
