/** Deleting a directory with everything below it. */
module RecursiveDelete {
  import opened Bytes
  import opened Geometry
  import opened Inodes
  import opened Space
  import opened BlockTree
  import opened Ownership
  import opened DirRecords
  import opened Volumes
  import opened Loading
  import opened InodeTable
  import opened Directory
  import opened Metadata
  import opened Invariant
  import opened Corruption
  import opened FileSystem
  import opened ReadDelete

  /** The finite tree hanging below an inode: one child for every record after the two dots, in order. */
  datatype Node = FileNode(ino: nat) | DirNode(ino: nat, kids: seq<Node>)

  ghost predicate Spans(dirs: map<nat, seq<Rec>>, n: Node)
    decreases n
  {
    match n
    case FileNode(k) => k !in dirs
    case DirNode(k, kids) =>
      && k in dirs && |dirs[k]| == |kids| + 2
      && forall i :: 0 <= i < |kids| ==> kids[i].ino == dirs[k][2 + i].ino && Spans(dirs, kids[i])
  }

  /** x is an inode of the tree. */
  ghost predicate Inside(n: Node, x: nat)
    decreases n
  {
    x == n.ino || (n.DirNode? && exists i :: 0 <= i < |n.kids| && Inside(n.kids[i], x))
  }

  ghost function Height(n: Node): (h: nat)
    decreases n
  {
    if n.FileNode? then 0 else 1 + TallestOf(n.kids)
  }

  ghost function TallestOf(kids: seq<Node>): (h: nat)
    ensures forall i :: 0 <= i < |kids| ==> Height(kids[i]) <= h
    decreases kids
  {
    if kids == [] then 0
    else
      var a, b := Height(kids[0]), TallestOf(kids[1..]);
      assert forall i :: 1 <= i < |kids| ==> kids[i] == kids[1..][i - 1];
      if a > b then a else b
  }

  /** The tree below an inode is determined by the directories. */
  lemma {:induction false} SpansUnique(dirs: map<nat, seq<Rec>>, m: Node, n: Node)
    requires Spans(dirs, m) && Spans(dirs, n) && m.ino == n.ino
    ensures m == n
    decreases m
  {
    if m.DirNode? {
      forall i | 0 <= i < |m.kids|
        ensures m.kids[i] == n.kids[i]
      {
        SpansUnique(dirs, m.kids[i], n.kids[i]);
      }
      assert m.kids == n.kids;
    }
  }

  /** The subtree of an inode inside a tree. */
  lemma {:induction false} SubNode(dirs: map<nat, seq<Rec>>, n: Node, x: nat) returns (m: Node)
    requires Spans(dirs, n) && Inside(n, x)
    ensures Spans(dirs, m) && m.ino == x && Height(m) <= Height(n)
    ensures forall y :: Inside(m, y) ==> Inside(n, y)
    decreases n
  {
    if x == n.ino {
      m := n;
    } else {
      var i :| 0 <= i < |n.kids| && Inside(n.kids[i], x);
      m := SubNode(dirs, n.kids[i], x);
    }
  }

  /** A directory is not among its own descendants. */
  lemma NotInKid(dirs: map<nat, seq<Rec>>, n: Node, i: nat)
    requires Spans(dirs, n) && n.DirNode? && i < |n.kids|
    ensures !Inside(n.kids[i], n.ino)
  {
    if Inside(n.kids[i], n.ino) {
      var m := SubNode(dirs, n.kids[i], n.ino);
      SpansUnique(dirs, m, n);
    }
  }

  /** Climbing from an inode of the tree stays in the tree until its top. */
  lemma {:induction false} UpInside(dirs: map<nat, seq<Rec>>, up: map<nat, nat>, n: Node, x: nat)
    requires Spans(dirs, n) && Inside(n, x) && x != n.ino
    requires forall k :: k in dirs ==> ListedBy(dirs[k], up, k)
    ensures x in up && Inside(n, up[x])
    decreases n
  {
    var i :| 0 <= i < |n.kids| && Inside(n.kids[i], x);
    if x == n.kids[i].ino {
      assert ListedBy(dirs[n.ino], up, n.ino);
      assert dirs[n.ino][2 + i].ino == x;
    } else {
      UpInside(dirs, up, n.kids[i], x);
    }
  }

  /** Trees neither of whose tops lies in the other share nothing. */
  lemma {:induction false} DisjointTrees(dirs: map<nat, seq<Rec>>, up: map<nat, nat>, m: Node, n: Node, x: nat)
    requires Spans(dirs, m) && Spans(dirs, n) && !Inside(m, n.ino) && !Inside(n, m.ino)
    requires forall k :: k in dirs ==> ListedBy(dirs[k], up, k)
    requires Inside(m, x)
    ensures !Inside(n, x)
    decreases m
  {
    if x != m.ino {
      var i :| 0 <= i < |m.kids| && Inside(m.kids[i], x);
      var c := m.kids[i];
      assert Inside(m, c.ino) && !Inside(c, n.ino);
      assert ListedBy(dirs[m.ino], up, m.ino) && dirs[m.ino][2 + i].ino == c.ino;
      if Inside(n, c.ino) {
        UpInside(dirs, up, n, c.ino);
      }
      DisjointTrees(dirs, up, c, n, x);
    }
  }

  /** Siblings share nothing. */
  lemma SiblingsDisjoint(dirs: map<nat, seq<Rec>>, up: map<nat, nat>, n: Node, i: nat, j: nat, x: nat)
    requires Spans(dirs, n) && n.DirNode? && i < |n.kids| && j < |n.kids| && i != j
    requires forall k :: k in dirs ==> ListedBy(dirs[k], up, k)
    requires forall a, b :: 2 <= a < b < |dirs[n.ino]| ==> dirs[n.ino][a].ino != dirs[n.ino][b].ino
    requires Inside(n.kids[i], x)
    ensures !Inside(n.kids[j], x)
  {
    NotInKid(dirs, n, i);
    NotInKid(dirs, n, j);
    var a, b := n.kids[i], n.kids[j];
    assert ListedBy(dirs[n.ino], up, n.ino);
    assert dirs[n.ino][2 + i].ino == a.ino && dirs[n.ino][2 + j].ino == b.ino;
    if Inside(b, a.ino) { UpInside(dirs, up, b, a.ino); }
    if Inside(a, b.ino) { UpInside(dirs, up, a, b.ino); }
    DisjointTrees(dirs, up, a, b, x);
  }

  /** The directory listing a tree is outside it. */
  lemma ParentOutside(dirs: map<nat, seq<Rec>>, p: nat, i: nat, n: Node)
    requires Spans(dirs, n) && p in dirs && 2 <= i < |dirs[p]| && dirs[p][i].ino == n.ino
    ensures !Inside(n, p)
  {
    if Inside(n, p) {
      var m := SubNode(dirs, n, p);
      assert m.kids[i - 2].ino == n.ino;
      SpansUnique(dirs, m.kids[i - 2], n);
    }
  }

  /** A tree still hangs below its inode when only directories outside it changed. */
  lemma {:induction false} SpansFrame(dirs: map<nat, seq<Rec>>, dirs': map<nat, seq<Rec>>, n: Node)
    requires Spans(dirs, n)
    requires forall x :: Inside(n, x) ==> (x in dirs <==> x in dirs') && (x in dirs ==> dirs'[x] == dirs[x])
    ensures Spans(dirs', n)
    decreases n
  {
    assert Inside(n, n.ino);
    if n.DirNode? {
      forall i | 0 <= i < |n.kids|
        ensures Spans(dirs', n.kids[i])
      {
        assert forall x :: Inside(n.kids[i], x) ==> Inside(n, x);
        SpansFrame(dirs, dirs', n.kids[i]);
      }
    }
  }

  /** A name that is an ordinary C string and does not start with a dot. */
  predicate PlainName(name: seq<byte>)
  {
    0 < |name| <= 255 && name[0] != 46 && 0 !in name
  }

  /** Every directory of the tree is held in one block and lists only plain names. */
  ghost predicate Clean(dirs: map<nat, seq<Rec>>, trees: map<nat, Tree>, n: Node)
    decreases n
  {
    n.DirNode? ==>
      && n.ino in dirs && n.ino in trees && |trees[n.ino].data| == 1
      && (forall i :: 2 <= i < |dirs[n.ino]| ==> PlainName(dirs[n.ino][i].name))
      && forall i :: 0 <= i < |n.kids| ==> Clean(dirs, trees, n.kids[i])
  }

  /** What makes children of a directory with heights assigned. */
  ghost predicate Levelled(nodes: map<nat, Inode>, dirs: map<nat, seq<Rec>>, up: map<nat, nat>, h: map<nat, nat>,
                           top: nat)
  {
    && (forall k :: k in dirs ==> k in nodes && |dirs[k]| >= 2 && ListedBy(dirs[k], up, k))
    && (forall k :: k in up ==> k in nodes)
    && Heights(up, h) && (forall k :: k in h ==> h[k] <= top)
  }

  function LevelOf(h: map<nat, nat>, k: nat): (l: nat)
  {
    if k in h then h[k] else 0
  }

  /** The tree below an inode, built from the records; it ends because every child lies one level deeper. */
  ghost function TreeBelow(nodes: map<nat, Inode>, dirs: map<nat, seq<Rec>>, up: map<nat, nat>, h: map<nat, nat>,
                           top: nat, k: nat): (n: Node)
    requires Levelled(nodes, dirs, up, h, top) && k in nodes
    ensures n.ino == k && Spans(dirs, n)
    decreases if LevelOf(h, k) <= top then top - LevelOf(h, k) else 0
  {
    if k !in dirs then FileNode(k)
    else
      assert ListedBy(dirs[k], up, k);
      DirNode(k, seq(|dirs[k]| - 2, i requires 0 <= i < |dirs[k]| - 2 =>
        TreeBelow(nodes, dirs, up, h, top, dirs[k][2 + i].ino)))
  }

  lemma {:induction false} Bounded(h: map<nat, nat>) returns (top: nat)
    ensures forall k :: k in h ==> h[k] <= top
    decreases |h|
  {
    if h == map[] {
      top := 0;
    } else {
      var k :| k in h;
      assert (h - {k}).Keys == h.Keys - {k};
      var rest := Bounded(h - {k});
      top := if h[k] > rest then h[k] else rest;
      forall x | x in h
        ensures h[x] <= top
      {
        assert x == k || x in h - {k};
      }
    }
  }

  /** In a tidy graph a finite tree hangs below every live inode. */
  lemma EverySpans(nodes: map<nat, Inode>, dirs: map<nat, seq<Rec>>, up: map<nat, nat>, k: nat) returns (n: Node)
    requires Tidy(nodes, dirs, up) && k in nodes
    ensures Spans(dirs, n) && n.ino == k
  {
    var h :| Heights(up, h);
    var top := Bounded(h);
    n := TreeBelow(nodes, dirs, up, h, top, k);
  }

  /** x is k or lies somewhere below it. */
  ghost predicate Under(up: map<nat, nat>, x: nat, k: nat)
  {
    exists n: nat :: Above(up, x, n) == k
  }

  lemma {:induction false} UnderKid(up: map<nat, nat>, x: nat, c: nat, m: nat)
    requires c in up && Above(up, x, m) == c
    ensures Above(up, x, m + 1) == up[c]
    decreases m
  {
    if m > 0 && x in up { UnderKid(up, up[x], c, m - 1); }
  }

  /** What hangs below an inode leads up to it. */
  lemma {:induction false} InsideUnder(dirs: map<nat, seq<Rec>>, up: map<nat, nat>, n: Node, x: nat)
    requires Spans(dirs, n) && Inside(n, x) && forall k :: k in dirs ==> ListedBy(dirs[k], up, k)
    ensures Under(up, x, n.ino)
    decreases n
  {
    if x == n.ino {
      assert Above(up, x, 0) == n.ino;
    } else {
      var i :| 0 <= i < |n.kids| && Inside(n.kids[i], x);
      InsideUnder(dirs, up, n.kids[i], x);
      var c := n.kids[i].ino;
      var m: nat :| Above(up, x, m) == c;
      assert ListedBy(dirs[n.ino], up, n.ino) && dirs[n.ino][2 + i].ino == c;
      UnderKid(up, x, c, m);
      assert Above(up, x, m + 1) == n.ino;
    }
  }

  /** Every directory at or below k is held in one block and lists only plain names. */
  ghost predicate CleanBelow(s: Snapshot, k: nat)
  {
    forall x :: x in s.dirs && Under(s.up, x, k) ==>
      x in s.trees && |s.trees[x].data| == 1 && forall i :: 2 <= i < |s.dirs[x]| ==> PlainName(s.dirs[x][i].name)
  }

  lemma {:induction false} BelowIsClean(s: Snapshot, k: nat, n: Node, top: Node)
    requires CleanBelow(s, k) && Spans(s.dirs, top) && top.ino == k && Spans(s.dirs, n)
    requires forall x :: Inside(n, x) ==> Inside(top, x)
    requires forall l :: l in s.dirs ==> ListedBy(s.dirs[l], s.up, l)
    ensures Clean(s.dirs, s.trees, n)
    decreases n
  {
    if n.DirNode? {
      assert Inside(n, n.ino);
      InsideUnder(s.dirs, s.up, top, n.ino);
      forall i | 0 <= i < |n.kids|
        ensures Clean(s.dirs, s.trees, n.kids[i])
      {
        assert forall x :: Inside(n.kids[i], x) ==> Inside(n, x);
        BelowIsClean(s, k, n.kids[i], top);
      }
    }
  }

  /** Codes of `read_directory`, first failing test first. */
  ghost function ReadDirCode(fs: Volume, parent: nat, name: seq<byte>, size: nat): (code: int)
    reads fs
  {
    if name == [] then -1
    else if parent !in fs.dirs || parent !in fs.nodes then 3
    else if fs.nodes[parent].size > size then -1
    else if name[0] != 46 && Absent(fs.dirs[parent], name, true) then 2
    else 0
  }

  /** read_directory: load the named child directory, or for a name starting with a dot the directory itself. */
  method ReadDirectory(fs: Volume, parent: nat, name: seq<byte>, buf: array<byte>, size: nat)
      returns (code: int, ghost k: nat)
    requires Valid(fs) && parent in fs.nodes && size <= buf.Length
    modifies buf
    ensures code == ReadDirCode(fs, parent, name, size)
    ensures code == -1 || code == 0 || code == 2 || code == 3
    ensures code == 3 <==> name != [] && parent !in fs.dirs
    ensures code == -1 <==> name == [] || (parent in fs.dirs && fs.nodes[parent].size > size)
    ensures code == 2 <==>
      (name != [] && parent in fs.dirs && fs.nodes[parent].size <= size && name[0] != 46 &&
       Absent(fs.dirs[parent], name, true))
    ensures code == 0 ==> k in fs.dirs && k in fs.nodes
    ensures code == 0 ==> if name[0] == 46 then k == parent else LooksUp(fs.dirs[parent], name, true, k)
    ensures code == 0 && fs.nodes[k].size <= size ==> LoadedFile(fs, k, old(buf[..]), buf[..])
    ensures code != 0 || fs.nodes[k].size > size ==> buf[..] == old(buf[..])
  {
    hide IsMeta, Used, FreeTotal, Owned, SpaceOk, Chain, InodeAt, InodeUsed, Tidy, FileBlocks, Layout,
      Absent, Synced, Contents, Matches, TreeOk, DirShape, Loaded;
    k := parent;
    if name == [] {
      return -1, k;
    }
    ValidDir(fs, parent);
    var node := ReadInode(fs, parent);
    if FileType(node.mode) != MODE_DIR {
      return 3, k;
    }
    if node.size > size {
      return -1, k;
    }
    if name[0] != 46 {
      var found, ino, kind, at := FindEntry(fs, node, name, true, fs.trees[parent], fs.dirs[parent]);
      if !found {
        return 2, k;
      }
      EntryLeads(fs, parent, at);
      MatchesKind(fs.dirs[parent][at], name, true);
      k := ino;
      ValidDir(fs, k);
      node := ReadInode(fs, ino);
      if FileType(node.mode) != MODE_DIR {
        return 1, k;
      }
    }
    LayoutSize(fs.blocks, node, fs.trees[k]);
    LoadInodeData(fs, node, buf, size, fs.trees[k]);
    code := 0;
  }

  ghost function Prune<V>(m: map<nat, V>, n: Node): (r: map<nat, V>)
  {
    map x | x in m && !Inside(n, x) :: m[x]
  }

  /** The state of a volume at one moment. */
  datatype Snapshot = Snapshot(d: Disk, nodes: map<nat, Inode>, trees: map<nat, Tree>, dirs: map<nat, seq<Rec>>,
                               up: map<nat, nat>)

  ghost function Snap(fs: Volume): (s: Snapshot)
    reads fs
  {
    Snapshot(fs.blocks, fs.nodes, fs.trees, fs.dirs, fs.up)
  }

  /** Record `at` of p and the whole tree it led to are gone; everything else is as it was. */
  ghost predicate Gone(s: Snapshot, t: Snapshot, p: nat, at: nat, n: Node)
  {
    && p in s.dirs && 2 <= at < |s.dirs[p]|
    && t.nodes == Prune(s.nodes, n) && t.trees == Prune(s.trees, n) && t.up == Prune(s.up, n)
    && t.dirs == Prune(s.dirs[p := Without(s.dirs[p], at)], n)
    && forall x :: x in s.trees && x != p && !Inside(n, x) ==> SameFile(s.d, t.d, s.trees[x])
  }

  /** For a file, that is what `delete` does. */
  lemma RemovedIsGone(fs: Volume, s: Snapshot, p: nat, at: nat, k: nat)
    requires Removed(fs, s.d, s.nodes, s.trees, s.dirs, s.up, p, at, k)
    ensures Gone(s, Snap(fs), p, at, FileNode(k))
  {
    hide FileBlocks, FreeTotal, SpaceOf;
    var n := FileNode(k);
    assert forall x :: Inside(n, x) <==> x == k;
    assert fs.nodes == Prune(s.nodes, n);
    assert fs.trees == Prune(s.trees, n);
    assert fs.up == Prune(s.up, n);
    assert fs.dirs == Prune(s.dirs[p := Without(s.dirs[p], at)], n);
  }

  ghost predicate InsideFirst(kids: seq<Node>, i: nat, x: nat)
  {
    exists j :: 0 <= j < i && j < |kids| && Inside(kids[j], x)
  }

  ghost function PruneFirst<V>(m: map<nat, V>, kids: seq<Node>, i: nat): (r: map<nat, V>)
  {
    map x | x in m && !InsideFirst(kids, i, x) :: m[x]
  }

  /** The records left in a directory after its first i children went. */
  function Left(recs: seq<Rec>, i: nat): (r: seq<Rec>)
    requires 2 + i <= |recs|
    ensures |r| == |recs| - i
    ensures forall j :: 0 <= j < |r| ==> r[j] == recs[if j < 2 then j else j + i]
  {
    recs[..2] + recs[2 + i..]
  }

  /** State of the loop over the children of directory n after i of them are gone. */
  ghost predicate Halfway(s: Snapshot, t: Snapshot, n: Node, i: nat)
    requires n.DirNode? && n.ino in s.dirs && 2 + i <= |s.dirs[n.ino]|
  {
    && t.nodes == PruneFirst(s.nodes, n.kids, i) && t.trees == PruneFirst(s.trees, n.kids, i)
    && t.up == PruneFirst(s.up, n.kids, i)
    && t.dirs == PruneFirst(s.dirs[n.ino := Left(s.dirs[n.ino], i)], n.kids, i)
    && forall x :: x in s.trees && x != n.ino && !InsideFirst(n.kids, i, x) ==> SameFile(s.d, t.d, s.trees[x])
  }

  lemma HalfwayStart(s: Snapshot, n: Node)
    requires n.DirNode? && n.ino in s.dirs && 2 <= |s.dirs[n.ino]|
    ensures Halfway(s, s, n, 0)
  {
    hide Inside, FileBlocks;
    assert Left(s.dirs[n.ino], 0) == s.dirs[n.ino];
    assert s.dirs[n.ino := s.dirs[n.ino]] == s.dirs;
    assert PruneFirst(s.nodes, n.kids, 0) == s.nodes;
    assert PruneFirst(s.trees, n.kids, 0) == s.trees;
    assert PruneFirst(s.up, n.kids, 0) == s.up;
    assert PruneFirst(s.dirs, n.kids, 0) == s.dirs;
  }

  lemma PruneNext<V>(m: map<nat, V>, kids: seq<Node>, i: nat)
    requires i < |kids|
    ensures Prune(PruneFirst(m, kids, i), kids[i]) == PruneFirst(m, kids, i + 1)
  {
    hide Inside;
    assert forall x :: InsideFirst(kids, i + 1, x) <==> InsideFirst(kids, i, x) || Inside(kids[i], x);
  }

  /** One more child gone. */
  lemma HalfwayStep(s: Snapshot, t: Snapshot, u: Snapshot, n: Node, i: nat)
    requires n.DirNode? && n.ino in s.dirs && i < |n.kids| && 2 + |n.kids| == |s.dirs[n.ino]|
    requires forall j :: 0 <= j < |n.kids| ==> !Inside(n.kids[j], n.ino)
    requires Halfway(s, t, n, i) && Gone(t, u, n.ino, 2, n.kids[i])
    ensures Halfway(s, u, n, i + 1)
  {
    hide Inside, FileBlocks;
    PruneNext(s.nodes, n.kids, i);
    PruneNext(s.trees, n.kids, i);
    PruneNext(s.up, n.kids, i);
    var k, recs := n.ino, s.dirs[n.ino];
    assert forall x :: InsideFirst(n.kids, i + 1, x) <==> InsideFirst(n.kids, i, x) || Inside(n.kids[i], x);
    assert !InsideFirst(n.kids, |n.kids|, k);
    assert t.dirs[k] == Left(recs, i);
    assert Without(Left(recs, i), 2) == Left(recs, i + 1);
    forall x | x in s.trees && x != k && !InsideFirst(n.kids, i + 1, x)
      ensures SameFile(s.d, u.d, s.trees[x])
    {
      assert x in t.trees && t.trees[x] == s.trees[x];
      assert SameFile(s.d, t.d, s.trees[x]) && SameFile(t.d, u.d, t.trees[x]);
    }
    assert u.dirs == PruneFirst(s.dirs[k := Left(recs, i + 1)], n.kids, i + 1);
  }

  lemma InsideParts(n: Node)
    requires n.DirNode?
    ensures forall x :: Inside(n, x) <==> x == n.ino || InsideFirst(n.kids, |n.kids|, x)
    ensures forall x :: Inside(FileNode(n.ino), x) <==> x == n.ino
  {
  }

  lemma PruneLast<V>(m: map<nat, V>, n: Node)
    requires n.DirNode?
    ensures Prune(PruneFirst(m, n.kids, |n.kids|), FileNode(n.ino)) == Prune(m, n)
  {
    InsideParts(n);
    hide Inside, InsideFirst;
  }

  lemma PruneLastDirs(s: Snapshot, p: nat, at: nat, n: Node)
    requires n.DirNode? && n.ino in s.dirs && 2 + |n.kids| == |s.dirs[n.ino]|
    requires p in s.dirs && !Inside(n, p) && at < |s.dirs[p]|
    ensures var half := PruneFirst(s.dirs[n.ino := Left(s.dirs[n.ino], |n.kids|)], n.kids, |n.kids|);
      && p in half && half[p] == s.dirs[p]
      && Prune(half[p := Without(half[p], at)], FileNode(n.ino)) == Prune(s.dirs[p := Without(s.dirs[p], at)], n)
  {
    InsideParts(n);
    hide Inside, InsideFirst;
  }

  /** When all children are gone, removing the directory itself removes the tree. */
  lemma AllGone(s: Snapshot, t: Snapshot, u: Snapshot, p: nat, at: nat, n: Node)
    requires n.DirNode? && n.ino in s.dirs && 2 + |n.kids| == |s.dirs[n.ino]|
    requires Halfway(s, t, n, |n.kids|) && p in s.dirs && !Inside(n, p)
    requires Gone(t, u, p, at, FileNode(n.ino))
    ensures Gone(s, u, p, at, n)
  {
    InsideParts(n);
    hide FileBlocks, Inside, InsideFirst;
    assert t.dirs[p] == s.dirs[p];
    PruneLast(s.nodes, n);
    PruneLast(s.trees, n);
    PruneLast(s.up, n);
    PruneLastDirs(s, p, at, n);
    forall x | x in s.trees && x != p && !Inside(n, x)
      ensures SameFile(s.d, u.d, s.trees[x])
    {
      assert x in t.trees && t.trees[x] == s.trees[x];
      assert SameFile(s.d, t.d, s.trees[x]) && SameFile(t.d, u.d, t.trees[x]);
    }
  }

  lemma {:induction false} CleanFrame(dirs: map<nat, seq<Rec>>, trees: map<nat, Tree>, dirs': map<nat, seq<Rec>>,
                                      trees': map<nat, Tree>, n: Node)
    requires Clean(dirs, trees, n)
    requires forall x :: Inside(n, x) && x in dirs ==> x in dirs' && dirs'[x] == dirs[x]
    requires forall x :: Inside(n, x) && x in trees ==> x in trees' && trees'[x] == trees[x]
    ensures Clean(dirs', trees', n)
    decreases n
  {
    assert Inside(n, n.ino);
    if n.DirNode? {
      forall i | 0 <= i < |n.kids|
        ensures Clean(dirs', trees', n.kids[i])
      {
        assert forall x :: Inside(n.kids[i], x) ==> Inside(n, x);
        CleanFrame(dirs, trees, dirs', trees', n.kids[i]);
      }
    }
  }

  /** A finite tree of one-block directories with plain names hangs below n in this state. */
  ghost predicate Doomed(s: Snapshot, n: Node)
  {
    n.DirNode? && Tidy(s.nodes, s.dirs, s.up) && Spans(s.dirs, n) && Clean(s.dirs, s.trees, n)
  }

  lemma DoomedTop(s: Snapshot, n: Node)
    requires Doomed(s, n)
    ensures n.DirNode?
    ensures n.ino in s.dirs && n.ino in s.nodes && n.ino in s.trees && |s.trees[n.ino].data| == 1
    ensures |s.dirs[n.ino]| == 2 + |n.kids| && DirShape(n.ino, s.dirs[n.ino])
    ensures forall j :: 0 <= j < |n.kids| ==> !Inside(n.kids[j], n.ino)
    ensures forall j :: 2 <= j < |s.dirs[n.ino]| ==> PlainName(s.dirs[n.ino][j].name)
  {
    hide DirShape, Inside;
    forall j | 0 <= j < |n.kids|
      ensures !Inside(n.kids[j], n.ino)
    {
      NotInKid(s.dirs, n, j);
    }
  }

  /** Child i is untouched by the removal of the children before it. */
  lemma ChildReady(s: Snapshot, t: Snapshot, n: Node, i: nat)
    requires Doomed(s, n) && i < |n.kids| && n.ino in s.dirs && |s.dirs[n.ino]| == 2 + |n.kids| && Halfway(s, t, n, i)
    ensures Spans(t.dirs, n.kids[i]) && Clean(t.dirs, t.trees, n.kids[i])
    ensures n.ino in t.dirs && n.ino in t.trees && n.ino in t.nodes && |t.trees[n.ino].data| == 1
    ensures |t.dirs[n.ino]| > 2 && t.dirs[n.ino][2] == s.dirs[n.ino][2 + i]
    ensures n.kids[i].ino == s.dirs[n.ino][2 + i].ino
    ensures n.kids[i].DirNode? <==> s.dirs[n.ino][2 + i].kind == 2
    ensures s.dirs[n.ino][2 + i].kind == 1 || s.dirs[n.ino][2 + i].kind == 2
  {
    DoomedTop(s, n);
    var k, c := n.ino, n.kids[i];
    ChildApart(s, n, i);
    assert EntriesOk(s.nodes, s.dirs, s.dirs[k]);
    assert EntryOk(s.nodes, s.dirs, s.dirs[k][2 + i]);
    hide Inside, DirShape, Tidy;
    assert !InsideFirst(n.kids, i, k);
    SpansFrame(s.dirs, t.dirs, c);
    CleanFrame(s.dirs, s.trees, t.dirs, t.trees, c);
  }

  lemma ChildApart(s: Snapshot, n: Node, i: nat)
    requires Doomed(s, n) && i < |n.kids|
    ensures forall x :: Inside(n.kids[i], x) ==> !InsideFirst(n.kids, i, x) && x != n.ino
  {
    DoomedTop(s, n);
    assert DirShape(n.ino, s.dirs[n.ino]);
    hide Inside, KeysUnique, NoDangling, DotDots, Rooted, Clean;
    forall x | Inside(n.kids[i], x)
      ensures !InsideFirst(n.kids, i, x)
    {
      forall j | 0 <= j < i
        ensures !Inside(n.kids[j], x)
      {
        SiblingsDisjoint(s.dirs, s.up, n, i, j, x);
      }
    }
  }

  /** A C string ends at its first zero byte. */
  function CString(s: seq<byte>): (r: seq<byte>)
  {
    if s == [] || s[0] == 0 then [] else [s[0]] + CString(s[1..])
  }

  lemma {:induction false} CStringWhole(s: seq<byte>)
    requires 0 !in s
    ensures CString(s) == s
  {
    if s != [] {
      assert s[0] in s;
      CStringWhole(s[1..]);
    }
  }

  /** get_entry_pure_name */
  function PureName(b: Block, o: nat): (name: seq<byte>)
    requires o + 9 <= 512
  {
    var n := U16(b, o + 6);
    if U32(b, o) == 0 || n == 0 || n > 255 || o + 9 + n > 512 then [] else b[o + 9..o + 9 + n]
  }

  /** What a request to delete a tree is about. */
  ghost predicate Target(s: Snapshot, parent: nat, name: seq<byte>, at: nat, n: Node)
  {
    && parent in s.dirs && parent in s.nodes && parent in s.trees
    && 2 <= at < |s.dirs[parent]| && Matches(s.dirs[parent][at], name, true) && s.dirs[parent][at].ino == n.ino
    && n.DirNode? && Spans(s.dirs, n) && Clean(s.dirs, s.trees, n)
    && PlainName(name)
  }

  /** In a directory of one block a deletion sees what is there, and unlinking works. */
  lemma SeenIn(fs: Volume, p: nat, name: seq<byte>, directory: bool)
    requires Valid(fs) && p in fs.dirs && p in fs.nodes && p in fs.trees && |fs.trees[p].data| == 1
    ensures Overlooked(fs.dirs[p], name, directory) <==> Absent(fs.dirs[p], name, directory)
    ensures forall i :: 1 <= i < |fs.dirs[p]| ==> Unlinking(fs.blocks, fs.trees, fs.dirs, p, i)
    ensures fs.nodes[p].size == 512
  {
    hide Valid, Chain, Layout, TreeOk, FileBlocks, Overlooked, Unlinks, Skipped, Absent, DirShape;
    ValidDir(fs, p);
    ValidNode(fs, p);
    OneBlockSeen(FileBlocks(fs.blocks, fs.trees[p].data), fs.dirs[p], name, directory);
  }

  lemma NotAbsent(recs: seq<Rec>, name: seq<byte>, directory: bool, at: nat)
    requires at < |recs| && Matches(recs[at], name, directory)
    ensures !Absent(recs, name, directory)
  {
  }

  lemma DoomedIn(fs: Volume, n: Node)
    requires Valid(fs) && n.DirNode? && Spans(fs.dirs, n) && Clean(fs.dirs, fs.trees, n)
    ensures Doomed(Snap(fs), n)
  {
  }

  /** One round of the loop over children: a subdirectory goes with all below it, a file by itself. */
  method DeleteChild(fs: Volume, cur: nat, name: seq<byte>, kind: byte, ghost s: Snapshot, ghost n: Node, ghost i: nat)
      returns (code: int)
    requires Valid(fs) && Doomed(s, n) && n.ino == cur && i < |n.kids|
    requires cur in s.dirs && |s.dirs[cur]| == 2 + |n.kids| && Halfway(s, Snap(fs), n, i)
    requires name == s.dirs[cur][2 + i].name && kind == s.dirs[cur][2 + i].kind && PlainName(name)
    modifies fs
    ensures Valid(fs) && code == 0 && Halfway(s, Snap(fs), n, i + 1)
    decreases n, 0
  {
    hide Owned, SpaceOk, Synced, Contents, Tidy, Clean, Spans, Inside, Absent, Removed, FileBlocks, IsMeta, Deletable,
      Overlooked, Unlinking, Skipped;
    ghost var t := Snap(fs);
    ChildReady(s, t, n, i);
    DoomedTop(s, n);
    ValidKeys(fs, cur);
    CStringWhole(name);
    NotAbsent(t.dirs[cur], name, kind == KIND_DIR, 2);
    SeenIn(fs, cur, name, kind == KIND_DIR);
    code := 0;
    if kind == KIND_DIR {
      code := DeleteTree(fs, cur, CString(name), 2, n.kids[i]);
      HalfwayStep(s, t, Snap(fs), n, i);
    } else if kind == KIND_FILE {
      ghost var k, at;
      code, k, at := Delete(fs, cur, name, false);
      OneMatch(t.dirs[cur], name, false, 2, at);
      FileDeletable(t.dirs, cur);
      RemovedIsGone(fs, t, cur, at, k);
      RemovedIno(fs, t, cur, at, k);
      HalfwayStep(s, t, Snap(fs), n, i);
    }
  }

  lemma FileDeletable(dirs: map<nat, seq<Rec>>, p: nat)
    requires p in dirs && |dirs[p]| > 2 && dirs[p][2].kind != 2
    ensures Deletable(dirs, p, 2)
  {
  }

  lemma RemovedIno(fs: Volume, t: Snapshot, p: nat, at: nat, k: nat)
    requires Removed(fs, t.d, t.nodes, t.trees, t.dirs, t.up, p, at, k)
    ensures p in t.dirs && at < |t.dirs[p]| && k == t.dirs[p][at].ino
  {
  }

  lemma ShapeDot(k: nat, recs: seq<Rec>)
    requires DirShape(k, recs)
    ensures |recs| >= 2 && recs[0] == Rec(0, k, 2, DOT)
  {
  }

  lemma LooksUpAt(recs: seq<Rec>, name: seq<byte>, directory: bool, at: nat)
    requires at < |recs| && Matches(recs[at], name, directory)
    ensures LooksUp(recs, name, directory, recs[at].ino)
  {
  }

  lemma FirstBlockLoaded(fs: Volume, k: nat, before: seq<byte>, after: seq<byte>)
    requires LoadedFile(fs, k, before, after) && |fs.trees[k].data| == 1 && |after| >= 512
    ensures after[..512] == FileBlocks(fs.blocks, fs.trees[k].data)[0]
  {
    var data := fs.trees[k].data;
    forall j: nat | j < 512
      ensures after[j] == FileBlocks(fs.blocks, data)[0][j]
    {
      assert after[0 + j] == ByteOf(fs.blocks, data, j);
    }
  }

  /** A record as the loop over children reads it from its copy of the directory. */
  lemma ReadRecord(c: seq<Block>, recs: seq<Rec>, j: nat)
    requires Chain(c, recs) && |c| == 1 && j < |recs|
    ensures var o := recs[j].pos;
      && o + 9 <= 512 && PureName(c[0], o) == recs[j].name && c[0][o + 8] == recs[j].kind
      && (U16(c[0], o + 4) == 0 <==> j == |recs| - 1)
      && (j + 1 < |recs| ==> o + U16(c[0], o + 4) == recs[j + 1].pos)
  {
    hide U16, U32, EntryLen, EntryMatches, Matches, Chain, PureName, RecIn, Follows;
    OneBlock(c, recs);
    AtRecord(c, recs, j, 0, recs[j].pos, [], true);
    ChainParts(c, recs, j);
    PureNameRec(c[0], recs[j].pos, recs[j], Step(recs, j));
  }

  lemma PureNameRec(b: Block, o: nat, r: Rec, len: nat)
    requires RecIn(b, o, r, len)
    ensures o + 9 <= 512 && PureName(b, o) == r.name
  {
  }

  /** Children of n already gone when the loop stands at record j. */
  function Passed(j: nat): (i: nat)
  {
    if j < 2 then 0 else j - 2
  }

  /** The loop of delete_recur_dir over its copy of the directory. */
  method DeleteChildren(fs: Volume, dirBlock: Block, cur: nat, ghost s: Snapshot, ghost n: Node)
      returns (allKilled: bool)
    requires Valid(fs) && Snap(fs) == s && Doomed(s, n) && n.ino == cur && cur in s.dirs &&
      |s.dirs[cur]| == 2 + |n.kids|
    requires Chain([dirBlock], s.dirs[cur]) && DirShape(cur, s.dirs[cur])
    modifies fs
    ensures Valid(fs) && allKilled && Halfway(s, Snap(fs), n, |n.kids|)
    decreases n, 1
  {
    hide Owned, SpaceOk, Synced, Contents, Tidy, Clean, Spans, Inside, FileBlocks, IsMeta, Matches, U16, U32, Chain,
      EntryLen, PureName, KeysUnique, Doomed, Halfway, Valid, Inodes.InodeAt;
    ShapeDot(cur, s.dirs[cur]);
    hide DirShape;
    ghost var recs := s.dirs[cur];
    DoomedTop(s, n);
    HalfwayStart(s, n);
    allKilled := true;
    var offset: nat := 0;
    ghost var j := 0;
    var more := true;
    while more
      invariant Valid(fs) && allKilled
      invariant more ==> j < |recs| && offset == recs[j].pos && Halfway(s, Snap(fs), n, Passed(j))
      invariant !more ==> Halfway(s, Snap(fs), n, |n.kids|)
      decreases if more then |recs| - j else 0
    {
      ReadRecord([dirBlock], recs, j);
      var name := PureName(dirBlock, offset);
      if !(name != [] && name[0] == 46) {
        assert j >= 2;
        var code := DeleteChild(fs, cur, name, dirBlock[offset + 8], s, n, j - 2);
        if code != 0 {
          allKilled := false;
        }
      } else {
        DotAt(cur, recs, n, s, j);
      }
      if U16(dirBlock, offset + 4) == 0 {
        more := false;
      } else {
        offset := offset + U16(dirBlock, offset + 4);
        j := j + 1;
      }
    }
  }

  lemma DotAt(cur: nat, recs: seq<Rec>, n: Node, s: Snapshot, j: nat)
    requires Doomed(s, n) && n.ino == cur && cur in s.dirs && recs == s.dirs[cur] && j < |recs|
    requires recs[j].name != [] && recs[j].name[0] == 46
    ensures j < 2
  {
    hide Inside, Clean, Spans, DirShape, Tidy;
    DoomedTop(s, n);
    assert j >= 2 ==> PlainName(recs[j].name);
  }

  /**
    How deleting a tree ends.  A parent over sixteen blocks is not read.  Where the search passes over the directory's
    own record, its children go but it stays.  Otherwise the answer is 0, and tree and record are gone if unlinking the
    record works.
   */
  ghost predicate Outcome(fs: Volume, s: Snapshot, parent: nat, name: seq<byte>, at: nat, n: Node, code: int)
    requires Target(s, parent, name, at, n)
    reads fs
  {
    if s.nodes[parent].size > 8192 then code == -1 && Valid(fs) && Snap(fs) == s
    else if Overlooked(s.dirs[parent], name, true) then code == 1 && Valid(fs) && Emptied(s, Snap(fs), n)
    else if Unlinking(s.d, s.trees, s.dirs, parent, at) then code == 0 && Valid(fs) && Gone(s, Snap(fs), parent, at, n)
    else code == 0 && Broken(fs.blocks)
  }

  /** Everything below the top of the tree is gone, and nothing else. */
  ghost predicate Emptied(s: Snapshot, t: Snapshot, n: Node)
  {
    n.DirNode? && n.ino in s.dirs && |s.dirs[n.ino]| == 2 + |n.kids| && Halfway(s, t, n, |n.kids|)
  }

  /** delete_recur_dir on the tree n. */
  method DeleteTree(fs: Volume, parent: nat, name: seq<byte>, ghost at: nat, ghost n: Node) returns (code: int)
    requires Valid(fs) && Target(Snap(fs), parent, name, at, n)
    modifies fs
    ensures Outcome(fs, old(Snap(fs)), parent, name, at, n, code)
    ensures code == 0 ==> TableCurrent(fs.blocks, fs.bgdt)
    decreases n, 2
  {
    hide Owned, SpaceOk, Synced, Contents, Tidy, Clean, Spans, Inside, Absent, Removed, FileBlocks, IsMeta,
      Matches, U16, U32, Chain, EntryLen, PureName, EntryMatches, LoadedFile, Halfway, DirShape, Gone, Deletable,
      TableCurrent, Overlooked, Skipped, Unlinks, Broken;
    ghost var s := Snap(fs);
    ParentOutside(s.dirs, parent, at, n);
    DoomedIn(fs, n);
    DoomedTop(s, n);
    NotAbsent(s.dirs[parent], name, true, at);
    ValidNode(fs, parent);
    ValidNode(fs, n.ino);
    ValidDir(fs, n.ino);
    ValidKeys(fs, parent);
    var buffer := new byte[8192](_ => 0);
    ghost var before := buffer[..];
    var res;
    ghost var k;
    res, k := ReadDirectory(fs, parent, name, buffer, 8192);
    if res != 0 {
      return if res == -1 then -1 else 1;
    }
    LooksUpAt(s.dirs[parent], name, true, at);
    SameInode(s.dirs[parent], name, true, k, n.ino);
    var dirBlock: Block := buffer[..512];
    ghost var c := FileBlocks(s.d, s.trees[n.ino].data);
    ghost var recs := s.dirs[n.ino];
    FirstBlockLoaded(fs, k, before, buffer[..]);
    assert c == [dirBlock];
    ShapeDot(n.ino, recs);
    AtRecord(c, recs, 0, 0, 0, [], true);
    var allKilled := DeleteChildren(fs, dirBlock, U32(dirBlock, 0), s, n);
    if !allKilled {
      return 1;
    }
    ghost var t := Snap(fs);
    HalfwayEnd(s, t, n, parent);
    ValidKeys(fs, parent);
    ghost var gone, at';
    code, gone, at' := Delete(fs, parent, name, true);
    if code == 1 {
      return;
    }
    OneMatch(t.dirs[parent], name, true, at, at');
    LastDeletable(t, n, parent, at);
    if Unlinking(s.d, s.trees, s.dirs, parent, at) {
      RemovedIsGone(fs, t, parent, at, gone);
      RemovedIno(fs, t, parent, at, gone);
      AllGone(s, t, Snap(fs), parent, at, n);
    }
  }

  /** With all children gone, the parent still lists the directory, which now has only its dots. */
  lemma HalfwayEnd(s: Snapshot, t: Snapshot, n: Node, p: nat)
    requires n.DirNode? && n.ino in s.dirs && |s.dirs[n.ino]| == 2 + |n.kids| && Halfway(s, t, n, |n.kids|)
    requires p in s.dirs && p in s.nodes && p in s.trees && !Inside(n, p)
    requires forall j :: 0 <= j < |n.kids| ==> !Inside(n.kids[j], n.ino)
    ensures p in t.dirs && p in t.nodes && p in t.trees && t.dirs[p] == s.dirs[p] && t.trees[p] == s.trees[p]
    ensures n.ino in t.dirs && |t.dirs[n.ino]| == 2
    ensures SameFile(s.d, t.d, s.trees[p])
  {
    InsideParts(n);
    assert !InsideFirst(n.kids, |n.kids|, n.ino);
  }

  lemma LastDeletable(t: Snapshot, n: Node, p: nat, at: nat)
    requires p in t.dirs && at < |t.dirs[p]| && t.dirs[p][at].ino == n.ino && n.ino in t.dirs && |t.dirs[n.ino]| == 2
    ensures Deletable(t.dirs, p, at)
  {
  }

  /** A directory of the parent that a deletion of everything below it is about. */
  ghost predicate Removes(s: Snapshot, parent: nat, name: seq<byte>, at: nat)
  {
    && parent in s.dirs && parent in s.nodes && parent in s.trees && PlainName(name)
    && 2 <= at < |s.dirs[parent]| && Matches(s.dirs[parent][at], name, true)
    && CleanBelow(s, s.dirs[parent][at].ino)
  }

  /**
    delete_recur_dir, where all directories from the named one down are held in one block and list only plain names: its
    outcome for the tree n below the name, which every valid volume has.
   */
  method DeleteRecurDir(fs: Volume, parent: nat, name: seq<byte>, ghost at: nat) returns (code: int, ghost n: Node)
    requires Valid(fs) && Removes(Snap(fs), parent, name, at)
    modifies fs
    ensures Spans(old(fs.dirs), n) && Target(old(Snap(fs)), parent, name, at, n)
    ensures Outcome(fs, old(Snap(fs)), parent, name, at, n, code)
    ensures code == -1 <==> old(fs.nodes[parent].size) > 16 * 512
    ensures code == 1 <==>
      old(fs.nodes[parent].size) <= 16 * 512 && at + 1 < |old(fs.dirs)[parent]| &&
      old(fs.dirs)[parent][at + 1].pos / 512 != old(fs.dirs)[parent][at].pos / 512
    ensures code == -1 || code == 0 || code == 1
    ensures code == 0 ==> TableCurrent(fs.blocks, fs.bgdt)
  {
    hide Owned, SpaceOk, Synced, Contents, Clean, Spans, Inside, FileBlocks, IsMeta, TableCurrent, CleanBelow, Matches,
      Tidy, Outcome, Overlooked, Skipped, KeysUnique;
    ghost var s := Snap(fs);
    EntryLeads(fs, parent, at);
    n := EverySpans(s.nodes, s.dirs, s.up, s.dirs[parent][at].ino);
    RemovesTarget(s, parent, name, at, n);
    ValidKeys(fs, parent);
    OnlyAt(s.dirs[parent], name, at);
    code := DeleteTree(fs, parent, name, at, n);
    OutcomeCode(fs, s, parent, name, at, n, code);
  }

  lemma OnlyAt(recs: seq<Rec>, name: seq<byte>, at: nat)
    requires KeysUnique(recs) && at < |recs| && Matches(recs[at], name, true)
    ensures Overlooked(recs, name, true) <==> Skipped(recs, at)
    ensures Skipped(recs, at) <==> at + 1 < |recs| && recs[at + 1].pos / 512 != recs[at].pos / 512
  {
    assert Skipped(recs, at) <==> at + 1 < |recs| && recs[at + 1].pos / 512 != recs[at].pos / 512;
    hide Skipped, KeysUnique;
    forall i: nat | i < |recs| && Matches(recs[i], name, true)
      ensures i == at
    {
      OneMatch(recs, name, true, i, at);
    }
  }

  lemma OutcomeCode(fs: Volume, s: Snapshot, parent: nat, name: seq<byte>, at: nat, n: Node, code: int)
    requires Target(s, parent, name, at, n) && Outcome(fs, s, parent, name, at, n, code)
    ensures code == if s.nodes[parent].size > 8192 then -1 else if Overlooked(s.dirs[parent], name, true) then 1 else 0
  {
    hide Valid, Broken, Gone, Emptied, Unlinking, Overlooked;
  }

  lemma RemovesTarget(s: Snapshot, parent: nat, name: seq<byte>, at: nat, n: Node)
    requires Tidy(s.nodes, s.dirs, s.up) && Removes(s, parent, name, at) && Spans(s.dirs, n) &&
      n.ino == s.dirs[parent][at].ino
    requires n.ino in s.dirs <==> s.dirs[parent][at].kind == 2
    ensures Target(s, parent, name, at, n)
  {
    hide Inside, DirShape;
    BelowIsClean(s, n.ino, n, n);
  }

  /** Block b belongs to some inode of the tree. */
  ghost predicate BlockOf(s: Snapshot, n: Node, b: nat)
  {
    exists x :: x in s.trees && Inside(n, x) && InTree(s.trees[x], b)
  }

  /** Exactly the blocks and inode bits of the removed tree were freed. */
  lemma GoneFrees(s: Snapshot, t: Snapshot, p: nat, at: nat, n: Node, before: map<nat, nat>, after: map<nat, nat>)
    requires Owned(s.d, s.nodes, s.trees, before) && Synced(s.d, s.nodes)
    requires Owned(t.d, t.nodes, t.trees, after) && Synced(t.d, t.nodes)
    requires Gone(s, t, p, at, n)
    ensures forall b: nat :: IsData(b) ==> (Used(t.d, b) <==> Used(s.d, b) && !BlockOf(s, n, b))
    ensures forall k: nat :: IsInode(k) ==> (InodeUsed(t.d, k) <==> InodeUsed(s.d, k) && !Inside(n, k))
  {
    hide Used, IsMeta, Layout, TreeOk, FileBlocks, Inside, InodeAt, InodeUsed;
    forall b: nat | IsData(b)
      ensures Used(t.d, b) <==> Used(s.d, b) && !BlockOf(s, n, b)
    {
      if b in before && !Inside(n, before[b]) {
        assert InTree(t.trees[before[b]], b);
      }
      if b in after {
        assert InTree(s.trees[after[b]], b);
      }
    }
  }
}
