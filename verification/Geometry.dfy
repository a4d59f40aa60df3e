/**
  Where things live on the disk: 16 groups of 512 blocks, 112 inodes a group,
  seven 70-byte inodes a block.  Group 0 starts with the signature, the
  superblock and the descriptor table; every other group with a copy of the table.
 */
module Geometry {
  import opened Bytes

  const GROUPS_COUNT: nat := 16
  const BLOCKS_PER_GROUP: nat := 512
  const INODE_SIZE: nat := 70
  const INODES_PER_TABLE: nat := 7
  const INODES_COUNT: nat := 1792
  const ROOT: nat := 2

  type Disk = d: seq<Block> | |d| == 8192 witness seq<Block>(8192, _ => ZeroBlock())

  function BlockBitmapOf(g: nat): nat { if g == 0 then 3 else 1 + g * 512 }
  function InodeBitmapOf(g: nat): nat { if g == 0 then 4 else 2 + g * 512 }
  function InodeTableOf(g: nat): nat { if g == 0 then 5 else 3 + g * 512 }

  /** Blocks the format reserves. */
  predicate IsMeta(b: nat)
  {
    b % 512 < if b < 512 then 21 else 19
  }

  predicate IsData(b: nat)
  {
    b < 8192 && !IsMeta(b)
  }

  predicate IsInode(k: nat)
  {
    1 <= k <= 1792
  }

  /** inode_to_bgd */
  function InodeGroup(k: nat): (g: nat)
    requires IsInode(k)
    ensures g < 16 && 112 * g < k <= 112 * g + 112
  {
    (k - 1) / 112
  }

  /** inode_to_local */
  function InodeLocal(k: nat): (l: nat)
    requires IsInode(k)
    ensures l < 112 && k == 112 * InodeGroup(k) + l + 1
  {
    (k - 1) % 112
  }

  function SlotBlock(k: nat): (b: nat)
    requires IsInode(k)
  {
    InodeTableOf(InodeGroup(k)) + InodeLocal(k) / 7
  }

  function SlotOffset(k: nat): (o: nat)
    requires IsInode(k)
  {
    (InodeLocal(k) % 7) * 70
  }

  /** Each inode slot fits in one reserved block that is not a bitmap of any group. */
  lemma SlotInTable(k: nat, g: nat)
    requires IsInode(k) && g < 16
    ensures SlotOffset(k) + 70 <= 512
    ensures SlotBlock(k) < 8192 && IsMeta(SlotBlock(k)) && SlotBlock(k) % 512 > 2
    ensures SlotBlock(k) != BlockBitmapOf(g) && SlotBlock(k) != InodeBitmapOf(g)
  {
    hide InodeGroup, InodeLocal;
    var h, q := InodeGroup(k), InodeLocal(k) / 7;
    assert 0 <= q < 16;
    assert (3 + 512 * h + q) % 512 == 3 + q;
  }

  /** Slots follow each other seven to a block, from the start of the group's table. */
  lemma SlotsInOrder(k: nat)
    requires IsInode(k)
    ensures k % 112 == 1 ==> SlotBlock(k) == InodeTableOf(k / 112) && SlotOffset(k) == 0
    ensures k % 112 != 0 && SlotOffset(k) + 140 <= 512 ==>
      IsInode(k + 1) && SlotBlock(k + 1) == SlotBlock(k) && SlotOffset(k + 1) == SlotOffset(k) + 70
    ensures k % 112 != 0 && SlotOffset(k) + 140 > 512 ==>
      IsInode(k + 1) && SlotBlock(k + 1) == SlotBlock(k) + 1 && SlotOffset(k + 1) == 0
  {
    hide InodeGroup, InodeLocal;
    var g, l := InodeGroup(k), InodeLocal(k);
    assert k % 112 == (l + 1) % 112 && (l < 111 ==> k / 112 == g);
    if k % 112 != 0 {
      NextInGroup(k);
      NextSlot(l);
    }
  }

  lemma NextInGroup(k: nat)
    requires IsInode(k) && k % 112 != 0
    ensures IsInode(k + 1) && InodeGroup(k + 1) == InodeGroup(k) && InodeLocal(k + 1) == InodeLocal(k) + 1
  {
  }

  lemma NextSlot(l: nat)
    requires l < 112
    ensures l % 7 * 70 + 140 <= 512 ==> (l + 1) / 7 == l / 7 && (l + 1) % 7 == l % 7 + 1
    ensures l % 7 * 70 + 140 > 512 ==> (l + 1) / 7 == l / 7 + 1 && (l + 1) % 7 == 0
  {
  }

  /** Different inode numbers have disjoint slots. */
  lemma SlotsDisjoint(j: nat, k: nat)
    requires IsInode(j) && IsInode(k) && j != k
    ensures SlotBlock(j) != SlotBlock(k) || SlotOffset(j) + 70 <= SlotOffset(k) || SlotOffset(k) + 70 <= SlotOffset(j)
  {
    if SlotBlock(j) == SlotBlock(k) {
      assert InodeGroup(j) == InodeGroup(k);
      assert InodeLocal(j) / 7 == InodeLocal(k) / 7;
      assert InodeLocal(j) != InodeLocal(k);
    }
  }

  lemma BitmapsAreMeta(g: nat)
    requires g < 16
    ensures BlockBitmapOf(g) < 8192 && IsMeta(BlockBitmapOf(g))
    ensures InodeBitmapOf(g) < 8192 && IsMeta(InodeBitmapOf(g))
    ensures BlockBitmapOf(g) / 512 == g && InodeBitmapOf(g) / 512 == g
  {
  }
}
