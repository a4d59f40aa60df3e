/** What several calls do one after the other. */
module Laws {
  import opened Bytes
  import opened Geometry
  import opened Inodes
  import opened Space
  import opened BlockTree
  import opened Ownership
  import opened DirRecords
  import opened Volumes
  import opened Allocation
  import opened InodeTable
  import opened Directory
  import opened Metadata
  import opened Invariant
  import opened Corruption
  import opened FileSystem
  import opened ReadDelete
  import opened Paths

  /** Bytes the records of these names take. */
  function RecordBytes(names: seq<seq<byte>>): (n: nat)
  {
    if names == [] then 0 else RecordBytes(names[..|names| - 1]) + EntryLen(|names[|names| - 1]|)
  }

  /** The records behind the dots are those of these names. */
  ghost predicate Names(recs: seq<Rec>, names: seq<seq<byte>>)
  {
    |recs| == 2 + |names| && recs[0].kind == 2 && recs[1].kind == 2 &&
    forall i :: 0 <= i < |names| ==> recs[2 + i].name == names[i] && recs[2 + i].kind == 1
  }

  /** Where the last record ends: right behind all the others, as long as they fill no more than a block. */
  ghost predicate EndsAfter(recs: seq<Rec>, bytes: nat)
  {
    |recs| > 0 &&
    var last := recs[|recs| - 1];
    if bytes <= 512 then last.pos < 512 && last.pos + EntryLen(|last.name|) == bytes else last.pos >= 512
  }

  lemma FreshEnds(k: nat, recs: seq<Rec>)
    requires DirShape(k, recs) && |recs| == 2
    ensures Names(recs, []) && EndsAfter(recs, 24)
  {
  }

  /** One more name. */
  lemma OneMoreName(recs: seq<Rec>, names: seq<seq<byte>>, bytes: nat, k: nat, name: seq<byte>)
    requires Names(recs, names) && EndsAfter(recs, bytes)
    ensures var rs := recs + [NewRec(recs, k, 1, name)];
      Names(rs, names + [name]) && EndsAfter(rs, bytes + EntryLen(|name|))
  {
    hide EntryLen;
    var rs, ns := recs + [NewRec(recs, k, 1, name)], names + [name];
    assert rs[0] == recs[0] && rs[1] == recs[1] && rs[|recs|].name == name && rs[|recs|].kind == 1;
    forall i | 0 <= i < |ns|
      ensures rs[2 + i].name == ns[i] && rs[2 + i].kind == 1
    {
      if i < |names| { assert rs[2 + i] == recs[2 + i]; }
    }
  }

  lemma NotYetThere(recs: seq<Rec>, names: seq<seq<byte>>, name: seq<byte>)
    requires Names(recs, names) && name !in names
    ensures Absent(recs, name, false)
  {
    forall i | 0 <= i < |recs|
      ensures !Matches(recs[i], name, false)
    {
      if i >= 2 {
        assert recs[2 + (i - 2)].name == names[i - 2];
        assert names[i - 2] in names;
      }
    }
  }

  lemma SafeToList(fs: Volume, parent: nat, name: seq<byte>)
    requires Valid(fs) && parent in fs.dirs && name != [] && FreeTotal(fs.blocks) >= 4
    requires |fs.dirs[parent]| > 0 && Absent(fs.dirs[parent], name, false) && |fs.bgdt| == 16
    ensures Safe(fs, parent, name, false, 0) && (Reaches(fs, parent, name, 0) <==> !NoInode(fs.blocks, fs.bgdt))
    ensures Linkable(fs.blocks, fs.dirs[parent], name, false)
  {
    hide Valid, FreeTotal, Absent, NoInode;
    assert BlocksFor(0) == 0;
  }

  lemma OneBlockDir(fs: Volume, p: nat, bytes: nat)
    requires Valid(fs) && p in fs.dirs && EndsAfter(fs.dirs[p], bytes)
    ensures p in fs.trees && (|fs.trees[p].data| == 1 <==> bytes <= 512)
  {
    hide Valid, EntryLen, Chain, Layout, TreeOk, DirShape;
    DirLive(fs, p);
    ValidDir(fs, p);
    ChainFirst(FileBlocks(fs.blocks, fs.trees[p].data), fs.dirs[p]);
  }

  lemma FreeAfter(fs: Volume, k: nat, d: Disk, dirs: map<nat, seq<Rec>>, trees: map<nat, Tree>, p: nat, name: seq<byte>)
    requires StoredAs(fs, k, [], 0, AfterListing(d, dirs, trees, p, name))
    ensures FreeTotal(fs.blocks) + 3 >= FreeTotal(d)
  {
    hide FreeTotal, Holds, Fits;
    assert BlocksFor(0) == 0;
  }

  /**
    Files listed one after the other in a fresh directory keep it in one block exactly as long as its two dots, 24
    bytes, and their records take no more than 512 bytes.
   */
  method ListNames(fs: Volume, parent: nat, names: seq<seq<byte>>) returns (listed: nat)
    requires Valid(fs) && parent in fs.dirs && |fs.dirs[parent]| == 2
    requires forall i :: 0 <= i < |names| ==> 0 < |names[i]| <= 255
    requires forall i, j :: 0 <= i < j < |names| ==> names[i] != names[j]
    requires FreeTotal(fs.blocks) >= 4 + 3 * |names|
    modifies fs
    ensures Valid(fs) && listed <= |names| && parent in fs.trees
    ensures |fs.bgdt| == 16 && (listed < |names| ==> NoInode(fs.blocks, fs.bgdt))
    ensures |fs.trees[parent].data| == 1 <==> 24 + RecordBytes(names[..listed]) <= 512
  {
    hide Valid, FreeTotal, Absent, NoInode, EntryLen, Created, StoredAs, Broken, Safe, Reaches, Linkable, NextInode,
      Settled, Listable, HasMode, EndsAfter, Names, NewRec, TableCurrent, InodeCountsKept, SlotsKept, AfterListing,
      BlocksFor, DirShape, RecordBytes;
    DirLive(fs, parent);
    BaseShape(fs, parent);
    FreshEnds(parent, fs.dirs[parent]);
    NoBytes();
    assert names[..0] == [];
    listed := 0;
    SpaceSizeAt(fs);
    while listed < |names|
      invariant Valid(fs) && parent in fs.dirs && parent in fs.nodes && 0 <= listed <= |names| && |fs.bgdt| == 16
      invariant Names(fs.dirs[parent], names[..listed])
      invariant EndsAfter(fs.dirs[parent], 24 + RecordBytes(names[..listed]))
      invariant FreeTotal(fs.blocks) >= 4 + 3 * (|names| - listed)
      decreases |names| - listed
    {
      ghost var recs, d, nodes, trees, dirs, up := fs.dirs[parent], fs.blocks, fs.nodes, fs.trees, fs.dirs, fs.up;
      DirLive(fs, parent);
      ghost var name, before := names[listed], names[..listed];
      NotYetThere(recs, before, name);
      ValidKeys(fs, parent);
      SafeToList(fs, parent, name);
      assert BlocksFor(0) == 0 by { NoBlocks(); }
      var code;
      ghost var k;
      code, k := Write(fs, parent, names[listed], false, [], 0);
      if code != 0 {
        break;
      }
      FreeAfter(fs, k, d, dirs, trees, parent, name);
      ListedNow(fs, d, nodes, trees, dirs, up, parent, name, false, k);
      OneMoreName(recs, before, 24 + RecordBytes(before), k, name);
      BytesNext(names, listed);
      DirLive(fs, parent);
      SpaceSizeAt(fs);
      listed := listed + 1;
    }
    OneBlockDir(fs, parent, 24 + RecordBytes(names[..listed]));
  }

  lemma NoBlocks()
    ensures BlocksFor(0) == 0
  {
  }

  lemma NoBytes()
    ensures RecordBytes([]) == 0
  {
  }

  lemma BytesNext(names: seq<seq<byte>>, i: nat)
    requires i < |names|
    ensures names[..i + 1] == names[..i] + [names[i]]
    ensures RecordBytes(names[..i + 1]) == RecordBytes(names[..i]) + EntryLen(|names[i]|)
  {
    hide EntryLen;
    assert names[..i + 1][..i] == names[..i];
  }

  lemma SpaceSizeAt(fs: Volume)
    requires Valid(fs)
    ensures |fs.bgdt| == 16
  {
  }

  lemma ListedNow(fs: Volume, d: Disk, nodes: map<nat, Inode>, trees: map<nat, Tree>, dirs: map<nat, seq<Rec>>,
                  up: map<nat, nat>, parent: nat, name: seq<byte>, directory: bool, k: nat)
    requires parent in dirs && |dirs[parent]| > 0 && parent in trees && parent in nodes
    requires Created(fs, d, nodes, trees, dirs, up, parent, name, directory, k)
    ensures k !in nodes && k != 0 && parent in fs.dirs
    ensures fs.dirs[parent] == dirs[parent] + [NewRec(dirs[parent], k, if directory then 2 else 1, name)]
  {
    hide SameFiles, Fits;
  }

  lemma LinkableAbsent(d: Disk, recs: seq<Rec>, name: seq<byte>, directory: bool)
    requires |recs| > 0 && Linkable(d, recs, name, directory)
    ensures Absent(recs, name, directory)
  {
  }

  lemma LookupLive(fs: Volume, p: nat, name: seq<byte>)
    requires Valid(fs) && p in fs.dirs
    ensures Lookup(fs.dirs[p], name, true) == 0 || Lookup(fs.dirs[p], name, true) in fs.nodes
  {
    hide Valid, Lookup;
    if Lookup(fs.dirs[p], name, true) != 0 {
      var at := LookupFound(fs.dirs[p], name, true);
      EntryLeads(fs, p, at);
    }
  }

  /** What a search under this key finds once the new record is there. */
  lemma LookupNew(recs: seq<Rec>, k: nat, kind: nat, name: seq<byte>)
    requires Absent(recs, name, kind == 2) && |recs| > 0 && (kind == 1 || kind == 2)
    ensures var rs := recs + [NewRec(recs, k, kind, name)];
      Lookup(rs, name, kind == 2) == k && (kind == 1 ==> Lookup(rs, name, true) == Lookup(recs, name, true))
  {
    hide Fits;
    var r := NewRec(recs, k, kind, name);
    var rs := recs + [r];
    assert rs[|recs|] == r;
    LookupAt(rs, name, kind == 2, |recs|);
    if kind == 1 { LookupSkips(recs, r, name, true); }
  }

  lemma {:induction false} LookupSkips(recs: seq<Rec>, r: Rec, name: seq<byte>, directory: bool)
    requires !Matches(r, name, directory)
    ensures Lookup(recs + [r], name, directory) == Lookup(recs, name, directory)
  {
    if recs == [] {
      assert recs + [r] == [r];
    } else {
      assert (recs + [r])[1..] == recs[1..] + [r];
      LookupSkips(recs[1..], r, name, directory);
    }
  }

  /** The inodes a directory's records carry are not 0, so a lookup that finds something says so. */
  lemma {:induction false} LookupZero(recs: seq<Rec>, name: seq<byte>, directory: bool)
    requires forall i :: 0 <= i < |recs| ==> recs[i].ino != 0
    ensures Lookup(recs, name, directory) == 0 <==> Absent(recs, name, directory)
  {
    if recs != [] {
      LookupZero(recs[1..], name, directory);
      assert Absent(recs, name, directory) <==>
             !Matches(recs[0], name, directory) && Absent(recs[1..], name, directory) by {
        assert forall i :: 1 <= i < |recs| ==> recs[i] == recs[1..][i - 1];
        assert forall i :: 0 <= i < |recs[1..]| ==> recs[1..][i] == recs[i + 1];
      }
    }
  }

  lemma NonZero(fs: Volume, p: nat)
    requires Valid(fs) && p in fs.dirs
    ensures forall i :: 0 <= i < |fs.dirs[p]| ==> fs.dirs[p][i].ino != 0
  {
    hide Valid;
    forall i: nat | i < |fs.dirs[p]|
      ensures fs.dirs[p][i].ino != 0
    {
      EntryLeads(fs, p, i);
      NoInodeZero(fs);
    }
  }

  /**
    A new name, once written, is what its path leads to: a directory always, a file unless a directory of the same name
    is listed, which goes first.
   */
  method WriteThenExist(fs: Volume, parent: nat, name: seq<byte>, directory: bool, src: seq<byte>, size: u32)
      returns (written: int, code: int, res: nat, ghost k: nat)
    requires Valid(fs) && parent in fs.dirs && parent in fs.nodes && 0 < |name| <= 255 && 47 !in name
    requires !(name == DOT && directory) && (!directory ==> |src| >= 512 * BlocksFor(size))
    requires Safe(fs, parent, name, directory, size)
    modifies fs
    ensures Valid(fs)
    ensures written == 0 && directory ==> code == 0 && res == k
    ensures written == 0 && !directory ==>
      if Absent(old(fs.dirs)[parent], name, true) then code == 1 && res == k else code == 0 && res != k
  {
    hide Valid, FreeTotal, Absent, NoInode, EntryLen, Created, StoredAs, Broken, Safe, Reaches, Linkable, NextInode,
      Settled, Listable, HasMode, NewRec, TableCurrent, InodeCountsKept, SlotsKept, AfterListing, BlocksFor, DirShape,
      Lookup, Components;
    ghost var d, nodes, trees, dirs, up := fs.blocks, fs.nodes, fs.trees, fs.dirs, fs.up;
    DirLive(fs, parent);
    ValidKeys(fs, parent);
    NonZero(fs, parent);
    LookupLive(fs, parent, name);
    written, k := Write(fs, parent, name, directory, src, size);
    code, res := 0, 0;
    if written != 0 {
      return;
    }
    ComponentsToken(name);
    ListedNow(fs, d, nodes, trees, dirs, up, parent, name, directory, k);
    LinkableAbsent(d, dirs[parent], name, directory);
    LookupNew(dirs[parent], k, if directory then 2 else 1, name);
    LookupZero(dirs[parent], name, true);
    code, res := Exist(fs, parent, name);
  }
}
