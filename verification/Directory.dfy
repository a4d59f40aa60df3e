/** Searching, extending and shrinking a directory's record chain on the disk. */
module Directory {
  import opened Bytes
  import opened Geometry
  import opened Inodes
  import opened Space
  import opened BlockTree
  import opened Ownership
  import opened DirRecords
  import opened Volumes
  import opened Loading
  import opened Cursor
  import opened Allocation
  import opened InodeTable

  /** The blocks of a file, in order. */
  function FileBlocks(d: Disk, data: seq<nat>): (c: seq<Block>)
    ensures |c| == |data|
    ensures forall i :: 0 <= i < |data| && data[i] < 8192 ==> c[i] == d[data[i]]
  {
    seq<Block>(|data|, i requires 0 <= i < |data| => if data[i] < 8192 then d[data[i]] else ZeroBlock())
  }

  /** Inode `node` is on disk with tree t, and its blocks hold the chain `recs`. */
  ghost predicate DirOn(d: Disk, node: Inode, t: Tree, recs: seq<Rec>)
  {
    TreeOk(t) && Layout(d, node, t) && Chain(FileBlocks(d, t.data), recs)
  }

  /** correct_request_entry on the record at offset o. */
  predicate EntryMatches(b: Block, o: nat, name: seq<byte>, directory: bool)
    requires o + 9 <= 512
  {
    && U32(b, o) != 0
    && U16(b, o + 6) == |name|
    && o + 9 + |name| <= 512 && b[o + 9..o + 9 + |name|] == name
    && (directory ==> b[o + 8] == KIND_DIR)
    && (!directory ==> b[o + 8] != KIND_DIR)
  }

  lemma EntryMatchesRec(b: Block, o: nat, r: Rec, len: nat, name: seq<byte>, directory: bool)
    requires RecIn(b, o, r, len)
    ensures o + 9 <= 512 && EntryMatches(b, o, name, directory) == Matches(r, name, directory)
    ensures U32(b, o) == r.ino && U16(b, o + 4) == len && U16(b, o + 6) == |r.name| && b[o + 8] == r.kind
  {
  }

  /** Buffer and cursor are at block k of the directory, which is disk block `current`. */
  ghost predicate Position(d: Disk, t: Tree, k: nat, current: nat, buf: Block, cache: seq<Block>)
  {
    k < |t.data| && current == t.data[k] && buf == FileBlocks(d, t.data)[k] && Ready(d, t, k + 1, cache)
  }

  /** The loop that moves on to the block the next record lies in. */
  method Advance(fs: Volume, node: Inode, k: nat, current: nat, offset: nat, buf: Block, cache: array<Block>,
                 ghost t: Tree)
      returns (k': nat, current': nat, offset': nat, buf': Block)
    requires TreeOk(t) && Layout(fs.blocks, node, t)
    requires Position(fs.blocks, t, k, current, buf, cache[..]) && (512 * k + offset) / 512 < |t.data|
    modifies cache
    ensures Position(fs.blocks, t, k', current', buf', cache[..])
    ensures offset' < 512 && 512 * k' + offset' == 512 * k + offset
  {
    hide Layout, TreeOk, Ready;
    TreeBound(t);
    k', current', offset', buf' := k, current, offset, buf;
    while offset' >= BLOCK_SIZE
      invariant Position(fs.blocks, t, k', current', buf', cache[..])
      invariant 512 * k' + offset' == 512 * k + offset
    {
      offset' := offset' - BLOCK_SIZE;
      current', buf' := LoadNextBlock(fs, node, k', cache, t);
      k' := k' + 1;
    }
  }

  /** The fresh cursor state the searches start from. */
  method FirstBlock(fs: Volume, node: Inode, ghost t: Tree) returns (current: nat, buf: Block, cache: array<Block>)
    requires TreeOk(t) && Layout(fs.blocks, node, t) && |t.data| > 0
    ensures fresh(cache) && Position(fs.blocks, t, 0, current, buf, cache[..])
  {
    TreeRange(t);
    cache := new Block[3](_ => ZeroBlock());
    current := node.block[0];
    buf := fs.blocks[current];
  }

  lemma ChainStart(c: seq<Block>, recs: seq<Rec>)
    requires Chain(c, recs)
    ensures |recs| >= 1 && recs[0].pos == 0 && |c| >= 1
    ensures recs[|recs| - 1].pos / 512 == |c| - 1
  {
    assert RecAt(c, recs, 0);
  }

  /** What the bytes at a record's position say, and where the next record is. */
  lemma AtRecord(c: seq<Block>, recs: seq<Rec>, at: nat, k: nat, offset: nat, name: seq<byte>, directory: bool)
    requires Chain(c, recs) && at < |recs| && offset < 512 && 512 * k + offset == recs[at].pos
    ensures k < |c| && offset + 9 <= 512
    ensures EntryMatches(c[k], offset, name, directory) == Matches(recs[at], name, directory)
    ensures U32(c[k], offset) == recs[at].ino && c[k][offset + 8] == recs[at].kind
    ensures U16(c[k], offset + 4) == 0 <==> at == |recs| - 1
    ensures at + 1 < |recs| ==> 512 * k + offset + U16(c[k], offset + 4) == recs[at + 1].pos
    ensures at + 1 < |recs| ==> recs[at + 1].pos / 512 < |c|
  {
    hide RecIn, EntryMatches, Matches, Chain, U16, U32, EntryLen;
    ChainParts(c, recs, at);
    EntryMatchesRec(c[k], offset, recs[at], Step(recs, at), name, directory);
    if at + 1 < |recs| {
      ChainParts(c, recs, at + 1);
    }
  }

  /**
    find_directory_entry: follow the chain from the first record; the answer is the first
    record with the wanted key, if there is one.
   */
  method FindEntry(fs: Volume, node: Inode, name: seq<byte>, directory: bool, ghost t: Tree, ghost recs: seq<Rec>)
      returns (found: bool, ino: u32, kind: byte, ghost at: nat)
    requires DirOn(fs.blocks, node, t, recs)
    ensures found <==> !Absent(recs, name, directory)
    ensures found ==> at < |recs| && Matches(recs[at], name, directory) && ino == recs[at].ino && kind == recs[at].kind
    ensures found ==> forall i :: 0 <= i < at ==> !Matches(recs[i], name, directory)
  {
    hide Layout, TreeOk, Ready, RecIn, EntryMatches, Matches, Chain, U16, U32, FileBlocks;
    ghost var c := FileBlocks(fs.blocks, t.data);
    ChainStart(c, recs);
    var current, buf, cache := FirstBlock(fs, node, t);
    var offset: nat, k: nat := 0, 0;
    at := 0;
    ino, kind := 0, 0;
    while true
      invariant at < |recs| && offset < 512 && 512 * k + offset == recs[at].pos
      invariant Position(fs.blocks, t, k, current, buf, cache[..])
      invariant forall i :: 0 <= i < at ==> !Matches(recs[i], name, directory)
      decreases |recs| - at
    {
      AtRecord(c, recs, at, k, offset, name, directory);
      if EntryMatches(buf, offset, name, directory) {
        return true, U32(buf, offset), buf[offset + 8], at;
      }
      if U16(buf, offset + 4) == 0 {
        return false, ino, kind, at;
      }
      offset := offset + U16(buf, offset + 4);
      at := at + 1;
      k, current, offset, buf := Advance(fs, node, k, current, offset, buf, cache, t);
    }
  }

  /**
    First part of add_directory_entry: walk to the end of the chain, starting after the first
    record, unless the key turns up on the way.
   */
  method FindEnd(fs: Volume, node: Inode, name: seq<byte>, directory: bool, ghost t: Tree, ghost recs: seq<Rec>)
      returns (found: bool, current: nat, offset: nat, buf: Block, ghost at: nat)
    requires DirOn(fs.blocks, node, t, recs) && |recs| >= 2 && !Matches(recs[0], name, directory)
    ensures found <==> !Absent(recs, name, directory)
    ensures offset + 9 <= 512 && at < |recs| && offset == recs[at].pos % 512
    ensures found ==> Matches(recs[at], name, directory) && U32(buf, offset) == recs[at].ino
    ensures !found ==> at == |recs| - 1 && |t.data| > 0 && current == t.data[|t.data| - 1]
    ensures !found ==> buf == FileBlocks(fs.blocks, t.data)[|t.data| - 1]
  {
    hide Layout, TreeOk, Ready, RecIn, EntryMatches, Matches, Chain, U16, U32, FileBlocks;
    ghost var c := FileBlocks(fs.blocks, t.data);
    ChainStart(c, recs);
    var cache;
    current, buf, cache := FirstBlock(fs, node, t);
    var k: nat := 0;
    offset := 0;
    at := 0;
    while true
      invariant at + 1 < |recs| && offset < 512 && 512 * k + offset == recs[at].pos
      invariant Position(fs.blocks, t, k, current, buf, cache[..])
      invariant forall i :: 0 <= i <= at ==> !Matches(recs[i], name, directory)
      decreases |recs| - at
    {
      AtRecord(c, recs, at, k, offset, name, directory);
      offset := offset + U16(buf, offset + 4);
      at := at + 1;
      k, current, offset, buf := Advance(fs, node, k, current, offset, buf, cache, t);
      AtRecord(c, recs, at, k, offset, name, directory);
      if EntryMatches(buf, offset, name, directory) {
        return true, current, offset, buf, at;
      }
      if U16(buf, offset + 4) == 0 {
        return false, current, offset, buf, at;
      }
    }
  }

  /** Blocks outside the directory's own tree, and reserved blocks other than block bitmaps, stay as they were. */
  ghost predicate OthersKept(d: Disk, e: Disk, t: Tree)
  {
    && (forall c: nat :: c < 8192 && Used(d, c) ==> Used(e, c))
    && (forall c: nat :: IsData(c) && Used(d, c) && !InTree(t, c) ==> e[c] == d[c])
    && (forall c: nat :: c < 8192 && IsMeta(c) && !IsBlockBitmap(c) ==> e[c] == d[c])
  }

  lemma FileBlocksWrite(d: Disk, t: Tree, i: nat, b: Block)
    requires TreeOk(t) && i < |t.data|
    ensures t.data[i] < 8192 && FileBlocks(d[t.data[i] := b], t.data) == FileBlocks(d, t.data)[i := b]
  {
    TreeRange(t);
  }

  /** The bytes after writing a new record behind the last one. */
  function WithRecord(b: Block, o: nat, cur: nat, ino: u32, kind: byte, name: seq<byte>): (e: Block)
    requires 0 < |name| <= 255 && cur >= 10 && o + cur + EntryLen(|name|) <= 512
  {
    var b1 := Put16(b, o + 4, cur);
    Splice(Splice(b1, o + cur, Header(ino, 0, |name|, kind)), o + cur + 9, name)
  }

  lemma WithRecordChain(c: seq<Block>, recs: seq<Rec>, ino: u32, kind: byte, name: seq<byte>)
    requires Chain(c, recs) && 0 < |name| <= 255 && ino != 0
    requires var last := recs[|recs| - 1];
      last.pos % 512 + EntryLen(|last.name|) + EntryLen(|name|) <= 512
    ensures var last := recs[|recs| - 1]; var o, cur := last.pos % 512, EntryLen(|last.name|);
      |c| > 0 && Chain(c[|c| - 1 := WithRecord(c[|c| - 1], o, cur, ino, kind, name)],
                       recs + [Rec(last.pos + cur, ino, kind, name)])
  {
    hide RecIn, U16;
    ChainStart(c, recs);
    ChainParts(c, recs, |recs| - 1);
    var last := recs[|recs| - 1];
    var b, o, cur := c[|c| - 1], last.pos % 512, EntryLen(|last.name|);
    var r := Rec(last.pos + cur, ino, kind, name);
    var b1 := Put16(b, o + 4, cur);
    var e := WithRecord(b, o, cur, ino, kind, name);
    RecInNew(b1, o + cur, r, ino, 0, kind, e);
    SameHalf(e, o + 4, b1, o + 4);
    AppendInPlace(c, recs, e, r);
  }

  /** Whether the new record fits behind the last one of its block. */
  predicate Fits(recs: seq<Rec>, name: seq<byte>)
    requires |recs| > 0
  {
    var last := recs[|recs| - 1];
    last.pos % 512 + EntryLen(|last.name|) + EntryLen(|name|) <= 512
  }

  /** The record an addition creates: right behind the last, or at the start of a new block. */
  function NewRec(recs: seq<Rec>, ino: nat, kind: nat, name: seq<byte>): (r: Rec)
    requires |recs| > 0
  {
    var last := recs[|recs| - 1];
    Rec(if Fits(recs, name) then last.pos + EntryLen(|last.name|) else 512 * (last.pos / 512 + 1), ino, kind, name)
  }

  lemma InPlaceChain(c: seq<Block>, recs: seq<Rec>, offset: nat, cur: nat, ino: u32, kind: byte, name: seq<byte>)
    requires Chain(c, recs) && |c| > 0 && |recs| > 0 && offset == recs[|recs| - 1].pos % 512 && Fits(recs, name)
    requires cur == EntryLen(|recs[|recs| - 1].name|) && 0 < |name| <= 255 && ino != 0
    ensures offset + cur + EntryLen(|name|) <= 512
    ensures Chain(c[|c| - 1 := WithRecord(c[|c| - 1], offset, cur, ino, kind, name)],
      recs + [NewRec(recs, ino, kind, name)])
  {
    hide Chain, EntryLen, WithRecord;
    WithRecordChain(c, recs, ino, kind, name);
  }

  /** The last record starts at this offset of its block. */
  predicate EndsAt(recs: seq<Rec>, offset: nat)
  {
    |recs| > 0 && offset == recs[|recs| - 1].pos % 512
  }

  /** The block with one more record behind its last one. */
  method PutInPlace(offset: nat, data: Block, ino: u32, kind: byte, name: seq<byte>, ghost c: seq<Block>,
                    ghost recs: seq<Rec>)
      returns (buf: Block)
    requires |c| > 0 && data == c[|c| - 1] && Chain(c, recs)
    requires EndsAt(recs, offset) && Fits(recs, name)
    requires ino != 0 && 0 < |name| <= 255
    ensures Chain(c[|c| - 1 := buf], recs + [NewRec(recs, ino, kind, name)])
  {
    hide Chain, U16, U32, EntryLen, WithRecord, NewRec, Fits;
    LastRecord(c, recs, data, offset);
    var cur := EntryLen(U16(data, offset + 6) % 0x100);
    InPlaceChain(c, recs, offset, cur, ino, kind, name);
    buf := WithRecord(data, offset, cur, ino, kind, name);
  }

  /** Second part of add_directory_entry, room left in the block: write the record there. */
  method AddInPlace(fs: Volume, ghost p: nat, current: nat, offset: nat, data: Block, ino: u32, kind: byte,
                    name: seq<byte>, ghost recs: seq<Rec>)
    requires fs.Own() && p in fs.nodes
    requires var t := fs.trees[p]; |t.data| > 0 && current == t.data[|t.data| - 1]
    requires var c := FileBlocks(fs.blocks, fs.trees[p].data); data == c[|c| - 1] && Chain(c, recs)
    requires EndsAt(recs, offset) && Fits(recs, name)
    requires ino != 0 && 0 < |name| <= 255
    modifies fs`blocks
    ensures fs.Own() && FreeTotal(fs.blocks) == FreeTotal(old(fs.blocks))
    ensures Chain(FileBlocks(fs.blocks, fs.trees[p].data), recs + [NewRec(recs, ino, kind, name)])
    ensures OthersKept(old(fs.blocks), fs.blocks, fs.trees[p])
    ensures LocalTo(old(fs.blocks), fs.blocks, fs.trees[p].data[0] / 512)
  {
    hide IsMeta, Used, FreeTotal, Layout, Owned, Chain, SpaceOk, TreeOk, FileBlocks, OthersKept, NewRec, Fits, EndsAt,
      LocalTo;
    OwnedShape(fs.blocks, fs.nodes, fs.trees, fs.owner, p);
    ghost var d, t := fs.blocks, fs.trees[p];
    var buf := PutInPlace(offset, data, ino, kind, name, FileBlocks(d, t.data), recs);
    FileBlocksWrite(d, t, |t.data| - 1, buf);
    WriteDataOwned(d, fs.nodes, fs.trees, fs.owner, p, current, buf);
    WriteKeepsSpaceAt(d, current, buf, fs.bgdt, fs.sb, fs.account);
    WriteOthers(d, t, current, buf);
    LocalDataWrite(d, current, buf, t.data[0] / 512);
    fs.blocks := fs.blocks[current := buf];
  }

  lemma LastRecord(c: seq<Block>, recs: seq<Rec>, b: Block, offset: nat)
    requires Chain(c, recs) && |recs| > 0 && |c| > 0 && b == c[|c| - 1] && offset == recs[|recs| - 1].pos % 512
    ensures var last := recs[|recs| - 1];
      offset + EntryLen(|last.name|) <= 512 && U16(b, offset + 6) == |last.name| && 0 < |last.name| <= 255
    ensures recs[|recs| - 1].pos / 512 == |c| - 1
  {
    hide EntryLen, U16, U32;
    ChainParts(c, recs, |recs| - 1);
    ChainStart(c, recs);
  }

  lemma WriteOthers(d: Disk, t: Tree, b: nat, buf: Block)
    requires IsData(b) && InTree(t, b)
    ensures OthersKept(d, d[b := buf], t) && FreeTotal(d[b := buf]) == FreeTotal(d)
  {
    hide IsMeta, Used, FreeTotal;
    WriteTook(d, b, buf);
  }

  /** The first record of a new directory block. */
  function FirstRecord(ino: u32, kind: byte, name: seq<byte>): (f: Block)
    requires 0 < |name| <= 255
  {
    Splice(Splice(ZeroBlock(), 0, Header(ino, 0, |name|, kind)), 9, name)
  }

  lemma NewBlockChain(c: seq<Block>, recs: seq<Rec>, ino: u32, kind: byte, name: seq<byte>)
    requires Chain(c, recs) && |recs| > 0 && |c| > 0 && 0 < |name| <= 255 && ino != 0 && !Fits(recs, name)
    requires recs[|recs| - 1].pos % 512 + 6 <= 512
    ensures var o := recs[|recs| - 1].pos % 512;
      Chain(c[|c| - 1 := Put16(c[|c| - 1], o + 4, 512 - o)] + [FirstRecord(ino, kind, name)],
            recs + [NewRec(recs, ino, kind, name)])
  {
    hide RecIn, U16, U32;
    var o := recs[|recs| - 1].pos % 512;
    var r := NewRec(recs, ino, kind, name);
    ChainStart(c, recs);
    var f := FirstRecord(ino, kind, name);
    RecInNew(ZeroBlock(), 0, r, ino, 0, kind, f);
    AppendNewBlock(c, recs, Put16(c[|c| - 1], o + 4, 512 - o), f, r);
  }

  /**
    Tree r is t with one block more; on e, written over with b1 in t's last block and b2 in the new one, only those
    blocks changed.
   */
  ghost predicate LastTwo(d: Disk, e: Disk, t: Tree, r: Tree, block: nat, b1: Block, b2: Block)
    requires |t.data| > 0 && block < 8192
  {
    var last := t.data[|t.data| - 1];
    && last < 8192 && last != block
    && FileBlocks(e[last := b1][block := b2], r.data) == FileBlocks(d, t.data)[|t.data| - 1 := b1] + [b2]
    && OthersKept(d, e[last := b1][block := b2], t)
    && last in r.data
  }

  /** What appending a block leaves alone in the directory's tree. */
  lemma GrownKept(d: Disk, nodes: map<nat, Inode>, trees: map<nat, Tree>, owner: map<nat, nat>,
                  e: Disk, nodes': map<nat, Inode>, trees': map<nat, Tree>, p: nat, block: nat)
    requires Owned(d, nodes, trees, owner) && p in nodes && p in trees && TreeOk(trees[p])
    requires Appended(d, nodes, trees, e, nodes', trees', p, block)
    ensures IsData(block) && !Used(d, block) && trees'[p].data == trees[p].data + [block]
    ensures forall i :: 0 <= i < |trees[p].data| ==>
      var c := trees[p].data[i]; IsData(c) && InTree(trees[p], c) && c != block && e[c] == d[c]
    ensures forall i, j :: 0 <= i < j < |trees[p].data| ==> trees[p].data[i] != trees[p].data[j]
    ensures OthersKept(d, e, trees[p])
    ensures FreeTotal(e) + 1 + ExtraPtrs(|trees[p].data|) == FreeTotal(d)
  {
    hide IsMeta, Used, FreeTotal, Layout, Owned, New;
    OwnedSole(d, nodes, trees, owner, p);
    var t := trees[p];
    SoleInTree(d, nodes[p], t);
    TouchedInTree(t);
    forall i | 0 <= i < |t.data|
      ensures IsData(t.data[i]) && InTree(t, t.data[i]) && t.data[i] != block && e[t.data[i]] == d[t.data[i]]
    {
      assert InTree(t, t.data[i]);
    }
  }

  lemma AppendedMode(d: Disk, nodes: map<nat, Inode>, trees: map<nat, Tree>,
                     e: Disk, nodes': map<nat, Inode>, trees': map<nat, Tree>, p: nat, block: nat)
    requires p in nodes && p in trees && TreeOk(trees[p]) && Appended(d, nodes, trees, e, nodes', trees', p, block)
    ensures p in nodes' && p in trees' && nodes' == nodes[p := nodes'[p]] && trees' == trees[p := trees'[p]]
    ensures nodes'[p].mode == nodes[p].mode && block in trees'[p].data
  {
    assert trees'[p].data[|trees[p].data|] == block;
  }

  lemma SoleInTree(d: Disk, node: Inode, t: Tree)
    requires Sole(d, node, t)
    ensures TreeOk(t) && forall c :: InTree(t, c) ==> IsData(c) && Used(d, c)
  {
    hide Layout, Used, IsMeta;
  }

  lemma GrownFile(d: Disk, e: Disk, xs: seq<nat>, block: nat, b1: Block, b2: Block)
    requires |xs| > 0 && block < 8192
    requires forall i :: 0 <= i < |xs| ==> xs[i] < 8192 && xs[i] != block && e[xs[i]] == d[xs[i]]
    requires forall i, j :: 0 <= i < j < |xs| ==> xs[i] != xs[j]
    ensures FileBlocks(e[xs[|xs| - 1] := b1][block := b2], xs + [block]) == FileBlocks(d, xs)[|xs| - 1 := b1] + [b2]
  {
  }

  lemma OthersTwice(d: Disk, e: Disk, f: Disk, g: Disk, t: Tree, b1: nat, b2: nat)
    requires OthersKept(d, e, t) && Took(e, f, []) && Took(f, g, [])
    requires IsData(b1) && IsData(b2) && b1 < 8192 && b2 < 8192 && InTree(t, b1) && !Used(d, b2)
    requires forall c: nat :: IsData(c) && c != b1 && c != b2 ==> g[c] == e[c]
    ensures OthersKept(d, g, t)
  {
    hide Used, IsMeta, InTree, FreeTotal;
  }

  /** The directory's blocks after one more was appended and both it and the previous last one were rewritten. */
  lemma GrownBlocks(d: Disk, nodes: map<nat, Inode>, trees: map<nat, Tree>, owner: map<nat, nat>,
                    e: Disk, nodes': map<nat, Inode>, trees': map<nat, Tree>, p: nat, block: nat, b1: Block, b2: Block)
    requires Owned(d, nodes, trees, owner) && p in nodes && p in trees && TreeOk(trees[p]) && |trees[p].data| > 0
    requires Appended(d, nodes, trees, e, nodes', trees', p, block)
    ensures LastTwo(d, e, trees[p], trees'[p], block, b1, b2)
  {
    hide IsMeta, Used, FreeTotal, Layout, Took, OthersKept, FileBlocks, InTree, TreeOk;
    GrownKept(d, nodes, trees, owner, e, nodes', trees', p, block);
    var t, last := trees[p], trees[p].data[|trees[p].data| - 1];
    assert trees'[p].data[|t.data| - 1] == last;
    var f := e[last := b1];
    WriteTook(e, last, b1);
    WriteTook(f, block, b2);
    GrownFile(d, e, t.data, block, b1, b2);
    OthersTwice(d, e, f, f[block := b2], t, last, block);
  }

  /** Tree r is t with the block next to its first one appended. */
  ghost predicate NextBlock(d: Disk, t: Tree, r: Tree)
  {
    |t.data| > 0 && |r.data| == |t.data| + 1 && r.data[..|t.data|] == t.data &&
      Nearest(d, t.data[0] / 512, r.data[|t.data|])
  }

  lemma NextBlockIs(d: Disk, t: Tree, r: Tree, block: nat)
    requires |t.data| > 0 && r.data == t.data + [block] && Nearest(d, t.data[0] / 512, block)
    ensures NextBlock(d, t, r)
  {
    hide Nearest;
  }

  /** Second part of add_directory_entry, block full: link to a new block, provided four blocks are free. */
  method AddInNewBlock(fs: Volume, ghost p: nat, node: Inode, current: nat, offset: nat, data: Block, ino: u32,
                       kind: byte, name: seq<byte>, ghost recs: seq<Rec>)
      returns (code: int, node': Inode)
    requires fs.Own() && p in fs.nodes && fs.nodes[p] == node
    requires var t := fs.trees[p]; |t.data| > 0 && current == t.data[|t.data| - 1]
    requires var c := FileBlocks(fs.blocks, fs.trees[p].data); data == c[|c| - 1] && Chain(c, recs)
    requires EndsAt(recs, offset) && !Fits(recs, name)
    requires ino != 0 && 0 < |name| <= 255
    modifies fs`blocks, fs`bgdt, fs`sb, fs`nodes, fs`trees, fs`owner
    ensures fs.Own() && fs.nodes == old(fs.nodes)[p := node'] && node'.mode == node.mode
    ensures p in fs.trees && fs.trees == old(fs.trees)[p := fs.trees[p]]
    ensures code == if FreeTotal(old(fs.blocks)) < 4 then 2 else 1
    ensures code == 2 ==>
      node' == node && fs.blocks == old(fs.blocks) && fs.bgdt == old(fs.bgdt) && fs.sb == old(fs.sb) &&
        fs.trees == old(fs.trees)
    ensures code == 1 ==> Chain(FileBlocks(fs.blocks, fs.trees[p].data), recs + [NewRec(recs, ino, kind, name)])
    ensures OthersKept(old(fs.blocks), fs.blocks, old(fs.trees[p]))
    ensures code == 1 ==> FreeTotal(fs.blocks) + 1 + ExtraPtrs(|old(fs.trees[p]).data|) == FreeTotal(old(fs.blocks))
    ensures OnlyCounts(old(fs.bgdt), fs.bgdt)
    ensures code == 1 ==> NextBlock(old(fs.blocks), old(fs.trees[p]), fs.trees[p])
    ensures |old(fs.trees[p]).data| > 0 && LocalTo(old(fs.blocks), fs.blocks, old(fs.trees[p]).data[0] / 512)
  {
    hide LocalTo, NextBlock, IsMeta, Used, FreeTotal, Layout, Owned, Chain, SpaceOk, TreeOk, U16, U32, EntryLen,
      FileBlocks, Appended, Put16, OthersKept;
    OwnedShape(fs.blocks, fs.nodes, fs.trees, fs.owner, p);
    ghost var d, nodes, trees, owner, t := fs.blocks, fs.nodes, fs.trees, fs.owner, fs.trees[p];
    NoneTouched(d, t);
    LastRecord(FileBlocks(d, t.data), recs, data, offset);
    FirstPointer(node, t);
    LocalWrite(d, d, t.data[0] / 512);
    var block;
    block, node' := AllocateAdditionalBlock(fs, p, node, node.block[0] / BLOCKS_PER_GROUP);
    if block == 0 {
      assert nodes == nodes[p := node'];
      return 2, node';
    }
    GrownKept(d, nodes, trees, owner, fs.blocks, fs.nodes, fs.trees, p, block);
    AppendedMode(d, nodes, trees, fs.blocks, fs.nodes, fs.trees, p, block);
    ghost var e := fs.blocks;
    var buf: Block := Put16(data, offset + 4, 512 - offset);
    GrownBlocks(d, nodes, trees, owner, e, fs.nodes, fs.trees, p, block, buf, FirstRecord(ino, kind, name));
    NewBlockChain(FileBlocks(d, t.data), recs, ino, kind, name);
    WriteBoth(e, fs.bgdt, fs.sb, fs.account, fs.nodes, fs.trees, fs.owner, p, current, buf, block,
      FirstRecord(ino, kind, name));
    NextBlockIs(d, t, fs.trees[p], block);
    LastIsData(e, fs.nodes, fs.trees, fs.owner, p, current, block);
    LocalDataWrite(fs.blocks, current, buf, t.data[0] / 512);
    LocalTrans(d, fs.blocks, fs.blocks[current := buf], t.data[0] / 512);
    fs.blocks := fs.blocks[current := buf];
    buf := FirstRecord(ino, kind, name);
    LocalDataWrite(fs.blocks, block, buf, t.data[0] / 512);
    LocalTrans(d, fs.blocks, fs.blocks[block := buf], t.data[0] / 512);
    fs.blocks := fs.blocks[block := buf];
    code := 1;
  }

  lemma FirstPointer(node: Inode, t: Tree)
    requires Shape(node, t) && |t.data| > 0
    ensures node.block[0] == t.data[0]
  {
  }

  lemma LastIsData(d: Disk, nodes: map<nat, Inode>, trees: map<nat, Tree>, owner: map<nat, nat>, p: nat, b: nat, c: nat)
    requires Owned(d, nodes, trees, owner) && p in nodes && p in trees && b in trees[p].data && c in trees[p].data
    ensures IsData(b) && IsData(c)
  {
    hide Layout, Used, IsMeta;
    assert InTree(trees[p], b) && InTree(trees[p], c);
  }

  lemma NoneTouched(d: Disk, t: Tree)
    ensures OthersKept(d, d, t)
  {
  }

  lemma WriteBoth(d: Disk, bgdt: seq<GroupDesc>, sb: Superblock, a: Account, nodes: map<nat, Inode>,
                  trees: map<nat, Tree>, owner: map<nat, nat>, p: nat, b1: nat, buf1: Block, b2: nat, buf2: Block)
    requires SpaceOk(d, bgdt, sb, a) && Owned(d, nodes, trees, owner) && p in nodes
    requires b1 in trees[p].data && b2 in trees[p].data
    ensures b1 < 8192 && b2 < 8192
    ensures var e := d[b1 := buf1][b2 := buf2];
      SpaceOk(e, bgdt, sb, a) && Owned(e, nodes, trees, owner) && FreeTotal(e) == FreeTotal(d)
  {
    hide IsMeta, Used, FreeTotal, Owned, SpaceOk;
    WriteDataOwned(d, nodes, trees, owner, p, b1, buf1);
    WriteKeepsSpaceAt(d, b1, buf1, bgdt, sb, a);
    WriteFree(d, b1, buf1);
    var d1 := d[b1 := buf1];
    WriteDataOwned(d1, nodes, trees, owner, p, b2, buf2);
    WriteKeepsSpaceAt(d1, b2, buf2, bgdt, sb, a);
    WriteFree(d1, b2, buf2);
  }

  /**
    add_directory_entry: 2 with the existing record's inode if the key is present; otherwise append
    one record, in place (0) or in a new block (1).  With no room and no space it also answers 2,
    leaving the inode number it was given.
   */
  method AddEntry(fs: Volume, ghost p: nat, node: Inode, name: seq<byte>, directory: bool, ino: u32, kind: byte,
                  ghost recs: seq<Rec>)
      returns (code: int, node': Inode, ino': u32, ghost at: nat)
    requires fs.Own() && p in fs.nodes && fs.nodes[p] == node
    requires Chain(FileBlocks(fs.blocks, fs.trees[p].data), recs) && |recs| >= 2 && !Matches(recs[0], name, directory)
    requires ino != 0 && 0 < |name| <= 255
    modifies fs`blocks, fs`bgdt, fs`sb, fs`nodes, fs`trees, fs`owner
    ensures fs.Own() && fs.nodes == old(fs.nodes)[p := node'] && node'.mode == node.mode
    ensures p in fs.trees && fs.trees == old(fs.trees)[p := fs.trees[p]]
    ensures code == if !Absent(recs, name, directory) then 2 else if Fits(recs, name) then 0
                    else if FreeTotal(old(fs.blocks)) < 4 then 2 else 1
    ensures code == 2 ==>
      node' == node && fs.blocks == old(fs.blocks) && fs.bgdt == old(fs.bgdt) && fs.sb == old(fs.sb) &&
        fs.trees == old(fs.trees)
    ensures Absent(recs, name, directory) ==> ino' == ino
    ensures !Absent(recs, name, directory) ==> at < |recs| && Matches(recs[at], name, directory) && ino' == recs[at].ino
    ensures code != 2 ==> Chain(FileBlocks(fs.blocks, fs.trees[p].data), recs + [NewRec(recs, ino, kind, name)])
    ensures code == 0 ==>
      FreeTotal(fs.blocks) == FreeTotal(old(fs.blocks)) && node' == node && fs.trees == old(fs.trees)
    ensures code == 1 ==> FreeTotal(fs.blocks) + 1 + ExtraPtrs(|old(fs.trees[p]).data|) == FreeTotal(old(fs.blocks))
    ensures OnlyCounts(old(fs.bgdt), fs.bgdt)
    ensures OthersKept(old(fs.blocks), fs.blocks, old(fs.trees[p]))
    ensures code == 1 ==> NextBlock(old(fs.blocks), old(fs.trees[p]), fs.trees[p])
    ensures |old(fs.trees[p]).data| > 0 && LocalTo(old(fs.blocks), fs.blocks, old(fs.trees[p]).data[0] / 512)
    ensures var last := recs[|recs| - 1];
      code == 0 ==>
        last.pos % 512 + EntryLen(|last.name|) + EntryLen(|name|) <= 512 &&
        Chain(FileBlocks(fs.blocks, fs.trees[p].data),
              recs + [Rec(last.pos + EntryLen(|last.name|), ino, kind, name)])
    ensures var last := recs[|recs| - 1];
      code == 1 ==>
        last.pos % 512 + EntryLen(|last.name|) + EntryLen(|name|) > 512 &&
        Chain(FileBlocks(fs.blocks, fs.trees[p].data),
              recs + [Rec(512 * |old(fs.trees[p]).data|, ino, kind, name)])
  {
    hide LocalTo, NextBlock, IsMeta, Used, FreeTotal, Layout, Owned, Chain, SpaceOk, TreeOk, U16, U32, EntryLen,
      FileBlocks, OthersKept, Absent, Matches;
    OwnedTreeAt(fs.blocks, fs.nodes, fs.trees, fs.owner, p);
    ghost var d, t := fs.blocks, fs.trees[p];
    NoneTouched(d, t);
    node', ino' := node, ino;
    assert fs.nodes == fs.nodes[p := node'] && fs.trees == fs.trees[p := t];
    ChainStart(FileBlocks(d, t.data), recs);
    LocalWrite(d, d, t.data[0] / 512);
    var found, current, offset, buf;
    found, current, offset, buf, at := FindEnd(fs, node, name, directory, t, recs);
    if found {
      return 2, node', U32(buf, offset), at;
    }
    LastRecord(FileBlocks(d, t.data), recs, buf, offset);
    LastPlace(FileBlocks(d, t.data), recs, ino, kind, name);
    if offset + EntryLen(U16(buf, offset + 6) % 0x100) + EntryLen(|name|) > BLOCK_SIZE {
      code, node' := AddInNewBlock(fs, p, node, current, offset, buf, ino, kind, name, recs);
      return;
    }
    AddInPlace(fs, p, current, offset, buf, ino, kind, name, recs);
    code := 0;
  }

  /** Where a new record goes, in bytes. */
  lemma LastPlace(c: seq<Block>, recs: seq<Rec>, ino: u32, kind: byte, name: seq<byte>)
    requires Chain(c, recs)
    ensures |recs| > 0
    ensures var last := recs[|recs| - 1];
      var fits := last.pos % 512 + EntryLen(|last.name|) + EntryLen(|name|) <= 512;
      && (Fits(recs, name) <==> fits)
      && NewRec(recs, ino, kind, name) ==
         Rec(if fits then last.pos + EntryLen(|last.name|) else 512 * |c|, ino, kind, name)
  {
    hide EntryLen;
    ChainFirst(c, recs);
  }

  lemma OwnedTreeAt(d: Disk, nodes: map<nat, Inode>, trees: map<nat, Tree>, owner: map<nat, nat>, k: nat)
    requires Owned(d, nodes, trees, owner) && k in nodes
    ensures k in trees && TreeOk(trees[k]) && Layout(d, nodes[k], trees[k]) && IsInode(k)
  {
  }

  /** Keys stay unique when a record with a new key is appended. */
  lemma AppendKeepsKeys(recs: seq<Rec>, r: Rec)
    requires KeysUnique(recs) && Absent(recs, r.name, r.kind == 2)
    ensures KeysUnique(recs + [r])
  {
    var rs := recs + [r];
    forall i, j | 0 <= i < j < |rs|
      ensures !Matches(rs[j], rs[i].name, rs[i].kind == 2)
    {
      if j == |recs| { assert !Matches(recs[i], r.name, r.kind == 2); }
    }
  }

  /** A directory inode as the table, the blocks and the ghost state agree on it. */
  ghost predicate DirInode(fs: Volume, k: nat)
    reads fs
  {
    && IsInode(k) && k in fs.nodes && k in fs.trees && k in fs.dirs
    && fs.nodes[k] == InodeAt(fs.blocks, k)
    && DirOn(fs.blocks, fs.nodes[k], fs.trees[k], fs.dirs[k])
    && |fs.dirs[k]| >= 2 && fs.dirs[k][1].pos == 12
  }

  /** is_directory_empty: the second record is the last. */
  method IsDirectoryEmpty(fs: Volume, k: nat) returns (empty: bool)
    requires fs.SpaceValid() && DirInode(fs, k)
    ensures empty <==> |fs.dirs[k]| == 2
  {
    hide IsMeta, Chain, SpaceOk, U16, U32, EntryLen, TreeOk;
    ghost var t, recs := fs.trees[k], fs.dirs[k];
    ghost var c := FileBlocks(fs.blocks, t.data);
    ChainStart(c, recs);
    FirstTwo(c, recs);
    TreeRange(t);
    var node := ReadInode(fs, k);
    var buf := fs.blocks[node.block[0]];
    var offset: int := U16(buf, 4);
    empty := U16(buf, offset + 4) == 0;
  }

  lemma FirstTwo(c: seq<Block>, recs: seq<Rec>)
    requires Chain(c, recs) && |recs| >= 2 && |c| > 0
    ensures recs[1].pos < 512 ==>
      recs[1].pos + 9 <= 512 && U16(c[0], 4) == recs[1].pos && (U16(c[0], recs[1].pos + 4) == 0 <==> |recs| == 2)
  {
    hide RecIn, EntryLen, U16;
    AtRecord(c, recs, 0, 0, 0, [], true);
    if recs[1].pos < 512 {
      AtRecord(c, recs, 1, 0, recs[1].pos, [], true);
    }
  }

  /** The block with the inode field of a record zeroed. */
  function Zeroed(b: Block, offset: nat): (e: Block)
    requires offset + 9 <= 512
  {
    Put32(b, offset, 0)
  }

  /**
    The predecessor's block with the distance of a record of length `more` added; the test for the end of the directory
    looks at the bytes of this block at the record's offset, wherever the record itself is.
   */
  function Extended(b: Block, prev: nat, offset: nat, more: u16): (e: Block)
    requires prev + 9 <= 512 && offset + 9 <= 512
  {
    var step: int, m: int := U16(b, prev + 4), more;
    Put16(b, prev + 4, if U16(b, offset + 4) == 0 then 0 else (step + m) % 0x1_0000)
  }

  /** What unlinking record i does to the blocks of the directory. */
  function UnlinkedBlocks(c: seq<Block>, recs: seq<Rec>, i: nat): (e: seq<Block>)
    requires 1 <= i < |recs| && recs[i].pos / 512 < |c| && recs[i - 1].pos / 512 < |c|
    requires recs[i].pos % 512 + 9 <= 512 && recs[i - 1].pos % 512 + 9 <= 512
  {
    var k, o, kp, p := recs[i].pos / 512, recs[i].pos % 512, recs[i - 1].pos / 512, recs[i - 1].pos % 512;
    var c1 := c[k := Zeroed(c[k], o)];
    c1[kp := Extended(c1[kp], p, o, U16(c[k], o + 4))]
  }

  /**
    Unlinking record i works: its predecessor is in the same block, or else it is not the last record, and the bytes of
    the predecessor's block at its own offset do not look like the end of a directory.
   */
  predicate Unlinks(c: seq<Block>, recs: seq<Rec>, i: nat)
  {
    1 <= i < |recs| &&
    var kp, o := recs[i - 1].pos / 512, recs[i].pos % 512;
    kp == recs[i].pos / 512 || (i + 1 < |recs| && kp < |c| && o + 6 <= 512 && U16(c[kp], o + 4) != 0)
  }

  lemma RecordFits(c: seq<Block>, recs: seq<Rec>, i: nat)
    requires Chain(c, recs) && i < |recs|
    ensures recs[i].pos / 512 < |c| && recs[i].pos % 512 + 9 <= 512
    ensures U16(c[recs[i].pos / 512], recs[i].pos % 512 + 4) == Step(recs, i)
  {
    hide EntryLen, U16, U32;
    ChainParts(c, recs, i);
  }

  /** The distance the predecessor of record i gets. */
  function Distance(c: seq<Block>, recs: seq<Rec>, i: nat): (len: int)
    requires 1 <= i < |recs| && recs[i - 1].pos / 512 < |c| && recs[i].pos % 512 + 6 <= 512
  {
    if U16(c[recs[i - 1].pos / 512], recs[i].pos % 512 + 4) == 0 then 0 else Step(recs, i - 1) + Step(recs, i)
  }

  lemma UnlinkedBytes(c: seq<Block>, recs: seq<Rec>, i: nat)
    requires Chain(c, recs) && 1 <= i < |recs|
    ensures recs[i].pos / 512 < |c| && recs[i - 1].pos / 512 < |c|
    ensures recs[i].pos % 512 + 9 <= 512 && recs[i - 1].pos % 512 + 9 <= 512
    ensures 0 <= Distance(c, recs, i) && Rewritten(c, UnlinkedBlocks(c, recs, i), recs, i, Distance(c, recs, i))
  {
    hide U16, U32, EntryLen, Chain, RecIn, Zeroed, Extended;
    RecordFits(c, recs, i);
    RecordFits(c, recs, i - 1);
    ChainParts(c, recs, i - 1);
    ChainParts(c, recs, i);
    Apart(c, recs, i - 1, i);
    var k, o, kp, p := recs[i].pos / 512, recs[i].pos % 512, recs[i - 1].pos / 512, recs[i - 1].pos % 512;
    ZeroedBytes(c[k], o);
    var z := Zeroed(c[k], o);
    var b := c[k := z][kp];
    SameHalf(b, o + 4, c[kp], o + 4);
    SameHalf(b, p + 4, c[kp], p + 4);
    ExtendedBytes(b, p, o, U16(c[k], o + 4));
    var e := UnlinkedBlocks(c, recs, i);
    assert k != kp ==> e[k] == z;
    SameWord(e[k], o, z, o);
  }

  lemma ZeroedBytes(b: Block, o: nat)
    requires o + 9 <= 512
    ensures U32(Zeroed(b, o), o) == 0 && forall x :: 0 <= x < 512 && !(o <= x < o + 4) ==> Zeroed(b, o)[x] == b[x]
  {
  }

  lemma ExtendedBytes(b: Block, p: nat, o: nat, more: u16)
    requires p + 9 <= 512 && o + 9 <= 512 && U16(b, p + 4) + more < 0x1_0000
    ensures var e := Extended(b, p, o, more);
      && U16(e, p + 4) == (if U16(b, o + 4) == 0 then 0 else U16(b, p + 4) + more)
      && forall x :: 0 <= x < 512 && !(p + 4 <= x < p + 6) ==> e[x] == b[x]
  {
    hide U16;
  }

  /** Unlinking leaves the chain of the other records where it works, and no chain at all where it does not. */
  lemma UnlinkedChain(c: seq<Block>, recs: seq<Rec>, i: nat)
    requires Chain(c, recs) && 1 <= i < |recs| && !Skipped(recs, i)
    ensures recs[i].pos / 512 < |c| && recs[i - 1].pos / 512 < |c|
    ensures recs[i].pos % 512 + 9 <= 512 && recs[i - 1].pos % 512 + 9 <= 512
    ensures var e := UnlinkedBlocks(c, recs, i);
      if Unlinks(c, recs, i) then Chain(e, Without(recs, i)) else NoChain(e)
  {
    hide U16, U32, EntryLen, Chain, RecIn, Rewritten, UnlinkedBlocks, NoChain;
    UnlinkedBytes(c, recs, i);
    RecordFits(c, recs, i);
    RecordFits(c, recs, i - 1);
    ChainParts(c, recs, i - 1);
    ChainParts(c, recs, i);
    ChainFirst(c, recs);
    var e, len := UnlinkedBlocks(c, recs, i), Distance(c, recs, i);
    if Unlinks(c, recs, i) {
      RemoveRec(c, recs, e, i, len);
    } else if len == 0 {
      CutOff(c, recs, e, i, len);
    } else {
      DeadRecord(c, recs, e, i, len);
    }
  }

  /** Every record with this key is the last of a block that is not the directory's last. */
  ghost predicate Overlooked(recs: seq<Rec>, name: seq<byte>, directory: bool)
  {
    forall i :: 0 <= i < |recs| && Matches(recs[i], name, directory) ==> Skipped(recs, i)
  }

  /** In a directory of one block the search sees every record, and unlinking works. */
  lemma OneBlockSeen(c: seq<Block>, recs: seq<Rec>, name: seq<byte>, directory: bool)
    requires Chain(c, recs) && |c| == 1
    ensures Overlooked(recs, name, directory) <==> Absent(recs, name, directory)
    ensures forall i :: 1 <= i < |recs| ==> Unlinks(c, recs, i) && !Skipped(recs, i)
  {
    hide Chain, Matches;
    OneBlock(c, recs);
  }

  /** The record at the cursor ends its block exactly when the next one starts another. */
  lemma AtEnd(c: seq<Block>, recs: seq<Rec>, at: nat, k: nat, offset: nat)
    requires Chain(c, recs) && at < |recs| && offset < 512 && 512 * k + offset == recs[at].pos
    ensures k < |c| && offset + 9 <= 512 && (offset + U16(c[k], offset + 4) >= 512 <==> Skipped(recs, at))
  {
    hide RecIn, EntryMatches, Matches, Chain, U16, U32, EntryLen;
    AtRecord(c, recs, at, k, offset, [], true);
    ChainParts(c, recs, at);
  }

  /** The predecessor of record `at` starts at offset `prev` of this disk block of the directory. */
  ghost predicate Preceded(t: Tree, recs: seq<Rec>, at: nat, prevBlock: nat, prev: nat)
  {
    1 <= at < |recs| &&
    var kp := recs[at - 1].pos / 512;
    kp < |t.data| && prevBlock == t.data[kp] && prev == recs[at - 1].pos % 512
  }

  lemma PrecededBy(t: Tree, recs: seq<Rec>, at: nat, k: nat, current: nat, offset: nat)
    requires at < |recs| && offset < 512 && 512 * k + offset == recs[at].pos && k < |t.data| && current == t.data[k]
    ensures at + 1 < |recs| ==> Preceded(t, recs, at + 1, current, offset)
  {
  }

  lemma SeenAt(recs: seq<Rec>, name: seq<byte>, directory: bool, at: nat)
    requires at < |recs| && Matches(recs[at], name, directory) && !Skipped(recs, at)
    ensures !Overlooked(recs, name, directory)
  {
  }

  lemma NoneSeen(recs: seq<Rec>, name: seq<byte>, directory: bool)
    requires forall i :: 0 <= i < |recs| ==> !Matches(recs[i], name, directory) || Skipped(recs, i)
    ensures Overlooked(recs, name, directory)
  {
  }

  /**
    The search of delete_directory_entry, remembering the previous record and its block.  It moves on to the next block
    when it meets the last record of one, without looking at that record's name.
   */
  method FindDeleted(fs: Volume, node: Inode, name: seq<byte>, directory: bool, ghost t: Tree, ghost recs: seq<Rec>)
      returns (found: bool, prevBlock: nat, current: nat, prev: nat, offset: nat, buf: Block, ghost at: nat)
    requires DirOn(fs.blocks, node, t, recs) && |recs| >= 2 && recs[1].pos < 512
    requires !Matches(recs[0], name, directory) && !Matches(recs[1], name, directory)
    ensures found <==> !Overlooked(recs, name, directory)
    ensures found ==> 2 <= at < |recs| && Matches(recs[at], name, directory) && !Skipped(recs, at)
    ensures found ==> forall i :: 0 <= i < at ==> !Matches(recs[i], name, directory) || Skipped(recs, i)
    ensures found ==> offset == recs[at].pos % 512 && offset + 9 <= 512 && Preceded(t, recs, at, prevBlock, prev)
    ensures found ==> var k := recs[at].pos / 512;
      k < |t.data| && current == t.data[k] && buf == FileBlocks(fs.blocks, t.data)[k]
    ensures found ==> U32(buf, offset) == recs[at].ino && buf[offset + 8] == recs[at].kind
  {
    hide IsMeta, Layout, TreeOk, Ready, U16, U32, EntryLen, FileBlocks, Matches, Chain, EntryMatches, Skipped, Preceded,
      Overlooked;
    ghost var c := FileBlocks(fs.blocks, t.data);
    ChainStart(c, recs);
    var cache;
    current, buf, cache := FirstBlock(fs, node, t);
    AtRecord(c, recs, 0, 0, 0, name, directory);
    PrecededBy(t, recs, 0, 0, current, 0);
    prevBlock, prev, offset, at := current, 0, U16(buf, 4), 1;
    var block: nat := 0;
    while true
      invariant 1 <= at < |recs| && offset < 512 && 512 * block + offset == recs[at].pos
      invariant Position(fs.blocks, t, block, current, buf, cache[..]) && Preceded(t, recs, at, prevBlock, prev)
      invariant forall i :: 0 <= i < at ==> !Matches(recs[i], name, directory) || Skipped(recs, i)
      decreases |recs| - at
    {
      AtRecord(c, recs, at, block, offset, name, directory);
      AtEnd(c, recs, at, block, offset);
      if offset + U16(buf, offset + 4) < BLOCK_SIZE {
        if EntryMatches(buf, offset, name, directory) {
          SeenAt(recs, name, directory, at);
          return true, prevBlock, current, prev, offset, buf, at;
        }
        if U16(buf, offset + 4) == 0 {
          NoneSeen(recs, name, directory);
          return false, prevBlock, current, prev, offset, buf, at;
        }
      }
      PrecededBy(t, recs, at, block, current, offset);
      prevBlock, prev := current, offset;
      offset := offset + U16(buf, offset + 4);
      at := at + 1;
      block, current, offset, buf := Advance(fs, node, block, current, offset, buf, cache, t);
    }
  }

  /**
    delete_directory_entry: unlink the first record with the key that the search sees, unless it is a directory that
    still has children.  Where that does not work, the bytes left hold no chain of records.
   */
  method DeleteEntry(fs: Volume, ghost p: nat, node: Inode, name: seq<byte>, directory: bool, ghost recs: seq<Rec>)
      returns (code: int, deleted: u32, ghost at: nat)
    requires fs.Own() && p in fs.nodes && fs.nodes[p] == node
    requires Chain(FileBlocks(fs.blocks, fs.trees[p].data), recs)
    requires |recs| >= 2 && recs[1].pos < 512
    requires !Matches(recs[0], name, directory) && !Matches(recs[1], name, directory)
    requires forall i :: 2 <= i < |recs| && recs[i].kind == 2 ==> DirInode(fs, recs[i].ino)
    modifies fs`blocks
    ensures fs.Own() && FreeTotal(fs.blocks) == FreeTotal(old(fs.blocks))
    ensures code == 0 || code == 1 || code == 2
    ensures code == 1 <==> Overlooked(recs, name, directory)
    ensures code != 1 ==> 2 <= at < |recs| && Matches(recs[at], name, directory) && !Skipped(recs, at)
    ensures code != 1 ==> forall i :: 0 <= i < at ==> !Matches(recs[i], name, directory) || Skipped(recs, i)
    ensures code != 1 ==>
      (code == 2 <==> recs[at].kind == 2 && recs[at].ino in fs.dirs && |fs.dirs[recs[at].ino]| != 2)
    ensures code != 0 ==> fs.blocks == old(fs.blocks)
    ensures code == 0 ==> deleted == recs[at].ino
    ensures code == 0 ==>
      var c := FileBlocks(fs.blocks, fs.trees[p].data);
      if Unlinks(FileBlocks(old(fs.blocks), fs.trees[p].data), recs, at)
      then Chain(c, Without(recs, at)) else NoChain(c)
    ensures OthersKept(old(fs.blocks), fs.blocks, fs.trees[p])
  {
    hide IsMeta, Used, FreeTotal, Layout, Owned, SpaceOk, TreeOk, U16, U32, EntryLen, FileBlocks, OthersKept, Matches,
      Chain, Zeroed, Extended, Exact, Skipped, Overlooked, NoChain, Unlinks;
    OwnedTreeAt(fs.blocks, fs.nodes, fs.trees, fs.owner, p);
    ghost var d, t := fs.blocks, fs.trees[p];
    ghost var c := FileBlocks(d, t.data);
    NoneTouched(d, t);
    deleted := 0;
    var found, prevBlock, current, prev, offset, buf;
    found, prevBlock, current, prev, offset, buf, at := FindDeleted(fs, node, name, directory, t, recs);
    if !found {
      return 1, deleted, at;
    }
    if buf[offset + 8] == KIND_DIR {
      var empty := IsDirectoryEmpty(fs, U32(buf, offset));
      if !empty {
        return 2, deleted, at;
      }
    }
    deleted := U32(buf, offset);
    UnlinkedChain(c, recs, at);
    ghost var k, kp := recs[at].pos / 512, recs[at - 1].pos / 512;
    var more := U16(buf, offset + 4);
    buf := Zeroed(buf, offset);
    WriteRecordBlock(d, fs.bgdt, fs.sb, fs.account, fs.nodes, fs.trees, fs.owner, p, k, buf);
    fs.blocks := fs.blocks[current := buf];
    ghost var d1 := fs.blocks;
    BlockAt(d1, t, kp);
    buf := Extended(fs.blocks[prevBlock], prev, offset, more);
    WriteRecordBlock(d1, fs.bgdt, fs.sb, fs.account, fs.nodes, fs.trees, fs.owner, p, kp, buf);
    fs.blocks := fs.blocks[prevBlock := buf];
    OthersTrans(d, d1, fs.blocks, t);
    code := 0;
  }

  lemma BlockAt(d: Disk, t: Tree, i: nat)
    requires TreeOk(t) && i < |t.data|
    ensures t.data[i] < 8192 && FileBlocks(d, t.data)[i] == d[t.data[i]]
  {
    TreeRange(t);
  }

  /** Writing block i of a directory. */
  lemma WriteRecordBlock(d: Disk, bgdt: seq<GroupDesc>, sb: Superblock, a: Account, nodes: map<nat, Inode>,
                         trees: map<nat, Tree>, owner: map<nat, nat>, p: nat, i: nat, buf: Block)
    requires SpaceOk(d, bgdt, sb, a) && Owned(d, nodes, trees, owner) && p in nodes
    requires p in trees && TreeOk(trees[p]) && i < |trees[p].data|
    ensures var b := trees[p].data[i];
      b < 8192 &&
      var e := d[b := buf];
      SpaceOk(e, bgdt, sb, a) && Owned(e, nodes, trees, owner) && FreeTotal(e) == FreeTotal(d) &&
      OthersKept(d, e, trees[p]) && FileBlocks(e, trees[p].data) == FileBlocks(d, trees[p].data)[i := buf]
  {
    hide IsMeta, Used, FreeTotal, Layout, Owned, SpaceOk, FileBlocks, OthersKept, InTree;
    var t := trees[p];
    FileBlocksWrite(d, t, i, buf);
    WriteDataOwned(d, nodes, trees, owner, p, t.data[i], buf);
    WriteKeepsSpaceAt(d, t.data[i], buf, bgdt, sb, a);
    DataInTree(t, i);
    WriteOthers(d, t, t.data[i], buf);
  }

  lemma OthersTrans(d: Disk, e: Disk, f: Disk, t: Tree)
    requires OthersKept(d, e, t) && OthersKept(e, f, t)
    ensures OthersKept(d, f, t)
  {
    hide Used, IsMeta, InTree;
  }

  lemma DataInTree(t: Tree, i: nat)
    requires i < |t.data|
    ensures InTree(t, t.data[i])
  {
  }

  /** The first block of a new directory: "." and "..", the latter ending the chain. */
  function DotBlock(self: u32, parent: u32): (b: Block)
  {
    var b1 := Splice(Splice(ZeroBlock(), 0, Header(self, EntryLen(1), 1, KIND_DIR)), 9, DOT);
    Splice(Splice(b1, EntryLen(1), Header(parent, 0, 2, KIND_DIR)), EntryLen(1) + 9, DOTDOT)
  }

  lemma DotBlockChain(self: u32, parent: u32)
    requires self != 0 && parent != 0
    ensures Chain([DotBlock(self, parent)], DotRecs(self, parent)) && KeysUnique(DotRecs(self, parent))
  {
    hide U16, U32, RecIn, Chain;
    var b1 := Splice(Splice(ZeroBlock(), 0, Header(self, 12, 1, KIND_DIR)), 9, DOT);
    var r0, r1 := Rec(0, self, 2, DOT), Rec(12, parent, 2, DOTDOT);
    RecInNew(ZeroBlock(), 0, r0, self, 12, KIND_DIR, b1);
    RecInNew(b1, 12, r1, parent, 0, KIND_DIR, DotBlock(self, parent));
    RecInFrame(b1, DotBlock(self, parent), 0, r0, 12);
    InitChain(DotBlock(self, parent), self, parent);
  }

  /** init_directory_table: give the empty inode its first block, provided four are free; otherwise it stays empty. */
  method InitDirectoryTable(fs: Volume, node: Inode, self: u32, parent: u32) returns (node': Inode, ghost t: Tree)
    requires fs.SpaceValid() && IsInode(self) && parent != 0
    requires node.block == NoPointers() && node.size == 512
    modifies fs`blocks, fs`bgdt, fs`sb
    ensures fs.SpaceValid() && OnlyCounts(old(fs.bgdt), fs.bgdt)
    ensures Sole(fs.blocks, node', t) && node'.mode == node.mode
    ensures KeptUsed(old(fs.blocks), fs.blocks) && AllNew(old(fs.blocks), fs.blocks, t)
    ensures FreeTotal(old(fs.blocks)) >= 4 ==>
      FileBlocks(fs.blocks, t.data) == [DotBlock(self, parent)] && FreeTotal(fs.blocks) + 1 == FreeTotal(old(fs.blocks))
    ensures FreeTotal(old(fs.blocks)) < 4 ==> t.data == [] && FreeTotal(fs.blocks) == FreeTotal(old(fs.blocks))
    ensures |t.data| > 0 ==> Nearest(old(fs.blocks), InodeGroup(self), t.data[0])
  {
    hide Nearest, LocalTo, InGroup, IsMeta, Used, FreeTotal, Layout, SpaceOk, TreeOk, DotBlock, KeptUsed, AllNew, Sole;
    var buf := DotBlock(self, parent);
    node', t := StoreBlocks(fs, buf, node, InodeGroup(self));
    DotStored(fs.blocks, t.data, buf);
  }

  lemma DotStored(d: Disk, data: seq<nat>, buf: Block)
    requires Holds(d, data, buf)
    ensures |data| == 1 ==> FileBlocks(d, data) == [buf]
  {
    if |data| == 1 {
      assert data[0] < 8192 && d[data[0]] == Chunk(buf, 0);
      assert Chunk(buf, 0) == buf;
    }
  }
}
