/** The invariant of a mounted file system and what keeps it. */
module Invariant {
  import opened Geometry
  import opened Inodes
  import opened BlockTree
  import opened Ownership
  import opened DirRecords
  import opened Volumes
  import opened Directory

  /** The inode bitmaps and tables say what the inodes in memory say. */
  ghost predicate Synced(d: Disk, nodes: map<nat, Inode>)
  {
    && (forall k: nat :: IsInode(k) ==> (InodeUsed(d, k) <==> k in nodes))
    && (forall k :: k in nodes ==> IsInode(k) && nodes[k] == InodeAt(d, k))
  }

  /** The blocks of every directory hold its record chain. */
  ghost predicate Contents(d: Disk, trees: map<nat, Tree>, dirs: map<nat, seq<Rec>>)
  {
    forall k :: k in dirs ==> k in trees && Chain(FileBlocks(d, trees[k].data), dirs[k])
  }

  /** "." and ".." first, then entries with distinct keys and distinct inodes. */
  ghost predicate DirShape(k: nat, recs: seq<Rec>)
  {
    && |recs| >= 2
    && recs[0] == Rec(0, k, 2, DOT)
    && recs[1].pos == 12 && recs[1].kind == 2 && recs[1].name == DOTDOT
    && KeysUnique(recs)
    && (forall i, j :: 2 <= i < j < |recs| ==> recs[i].ino != recs[j].ino)
  }

  ghost predicate Lists(recs: seq<Rec>, ino: nat)
  {
    exists i :: 2 <= i < |recs| && recs[i].ino == ino
  }

  ghost predicate EntryOk(nodes: map<nat, Inode>, dirs: map<nat, seq<Rec>>, r: Rec)
  {
    r.ino in nodes && r.kind == if r.ino in dirs then 2 else 1
  }

  /** Directories are exactly the inodes of directory mode, each with "." and ".." and distinct keys. */
  ghost predicate Typed(nodes: map<nat, Inode>, dirs: map<nat, seq<Rec>>)
  {
    && (forall k :: k in dirs ==> k in nodes && DirShape(k, dirs[k]))
    && (forall k :: k in nodes ==> nodes[k].mode == if k in dirs then MODE_DIR else MODE_FILE)
    && ROOT in dirs
  }

  ghost predicate EntriesOk(nodes: map<nat, Inode>, dirs: map<nat, seq<Rec>>, recs: seq<Rec>)
  {
    forall i :: 0 <= i < |recs| ==> EntryOk(nodes, dirs, recs[i])
  }

  /** Every record leads to a live inode of the right type. */
  ghost predicate NoDangling(nodes: map<nat, Inode>, dirs: map<nat, seq<Rec>>)
  {
    forall k :: k in dirs ==> EntriesOk(nodes, dirs, dirs[k])
  }

  ghost predicate ListedBy(recs: seq<Rec>, up: map<nat, nat>, k: nat)
  {
    forall i :: 2 <= i < |recs| ==> recs[i].ino in up && up[recs[i].ino] == k
  }

  /** Every live inode but the root is listed in exactly one directory, `up`. */
  ghost predicate ListedOnce(nodes: map<nat, Inode>, dirs: map<nat, seq<Rec>>, up: map<nat, nat>)
  {
    && (forall k :: k in up <==> k in nodes && k != ROOT)
    && (forall k :: k in up ==> up[k] in dirs && Lists(dirs[up[k]], k))
    && (forall k :: k in dirs ==> ListedBy(dirs[k], up, k))
  }

  /** ".." leads to the directory that lists this one; the root's leads to itself. */
  ghost predicate DotDots(dirs: map<nat, seq<Rec>>, up: map<nat, nat>)
  {
    forall k :: k in dirs ==> |dirs[k]| >= 2 && dirs[k][1].ino == if k in up then up[k] else ROOT
  }

  /** Every inode lies one level below the directory that lists it. */
  ghost predicate Heights(up: map<nat, nat>, h: map<nat, nat>)
  {
    forall k :: k in up ==> k in h && up[k] in h && h[k] == h[up[k]] + 1
  }

  /** No directory lies below itself. */
  ghost predicate Rooted(up: map<nat, nat>)
  {
    exists h :: Heights(up, h)
  }

  /** The directory graph is a consistent tree of names. */
  ghost predicate Tidy(nodes: map<nat, Inode>, dirs: map<nat, seq<Rec>>, up: map<nat, nat>)
  {
    Typed(nodes, dirs) && NoDangling(nodes, dirs) && ListedOnce(nodes, dirs, up) && DotDots(dirs, up) && Rooted(up)
  }

  lemma RootedAdd(up: map<nat, nat>, k: nat, p: nat)
    requires Rooted(up) && k !in up && k != p && forall l :: l in up ==> up[l] != k
    ensures Rooted(up[k := p])
  {
    var h :| Heights(up, h);
    var h0 := if p in h then h else h[p := 0];
    assert Heights(up[k := p], h0[k := h0[p] + 1]);
  }

  lemma RootedRemove(up: map<nat, nat>, k: nat)
    requires Rooted(up)
    ensures Rooted(up - {k})
  {
    var h :| Heights(up, h);
    assert Heights(up - {k}, h);
  }

  /** Going up n times from an inode. */
  function Above(up: map<nat, nat>, k: nat, n: nat): (r: nat)
    decreases n
  {
    if n == 0 || k !in up then k else Above(up, up[k], n - 1)
  }

  lemma {:induction false} Climb(nodes: map<nat, Inode>, dirs: map<nat, seq<Rec>>, up: map<nat, nat>, h: map<nat, nat>,
                                 k: nat)
    requires Typed(nodes, dirs) && ListedOnce(nodes, dirs, up) && Heights(up, h) && k in nodes
    ensures Above(up, k, if k in h then h[k] else 0) == ROOT
    decreases if k in h then h[k] else 0
  {
    if k in up {
      Climb(nodes, dirs, up, h, up[k]);
    }
  }

  /** Every live inode is reached from the root: going up from it, directory by directory, ends there. */
  lemma UpToRoot(nodes: map<nat, Inode>, dirs: map<nat, seq<Rec>>, up: map<nat, nat>, k: nat)
    requires Tidy(nodes, dirs, up) && k in nodes
    ensures exists n: nat :: Above(up, k, n) == ROOT
  {
    var h :| Heights(up, h);
    Climb(nodes, dirs, up, h, k);
  }

  /** The file system invariant. */
  ghost predicate Valid(fs: Volume)
    reads fs
  {
    fs.Own() && Synced(fs.blocks, fs.nodes) && Contents(fs.blocks, fs.trees, fs.dirs) && Tidy(fs.nodes, fs.dirs, fs.up)
  }

  lemma DirShapeAppend(k: nat, recs: seq<Rec>, r: Rec)
    requires DirShape(k, recs) && Absent(recs, r.name, r.kind == 2)
    requires forall i :: 2 <= i < |recs| ==> recs[i].ino != r.ino
    ensures DirShape(k, recs + [r])
  {
    AppendKeepsKeys(recs, r);
  }

  /** The directories after listing record r in p; a listed directory starts with its two dots. */
  function AddTo(dirs: map<nat, seq<Rec>>, p: nat, r: Rec): (e: map<nat, seq<Rec>>)
    requires p in dirs
  {
    var base := dirs[p := dirs[p] + [r]];
    if r.kind == 2 then base[r.ino := DotRecs(r.ino, p)] else base
  }

  /** What it takes to list a fresh inode m under record r in p, whose own inode may have changed to pnode. */
  ghost predicate Addable(nodes: map<nat, Inode>, dirs: map<nat, seq<Rec>>, p: nat, pnode: Inode, m: Inode, r: Rec)
  {
    && p in dirs && |dirs[p]| >= 2 && p in nodes && r.ino !in nodes && r.ino !in dirs
    && Absent(dirs[p], r.name, r.kind == 2)
    && pnode.mode == MODE_DIR
    && ((r.kind == 1 && m.mode == MODE_FILE) || (r.kind == 2 && m.mode == MODE_DIR))
  }

  lemma AddNoClash(nodes: map<nat, Inode>, dirs: map<nat, seq<Rec>>, r: Rec)
    requires NoDangling(nodes, dirs) && r.ino !in nodes
    ensures forall k, i :: k in dirs && 0 <= i < |dirs[k]| ==> dirs[k][i].ino != r.ino
  {
    forall k, i | k in dirs && 0 <= i < |dirs[k]|
      ensures dirs[k][i].ino != r.ino
    {
      assert EntriesOk(nodes, dirs, dirs[k]) && EntryOk(nodes, dirs, dirs[k][i]);
    }
  }

  lemma AddTyped(nodes: map<nat, Inode>, dirs: map<nat, seq<Rec>>, p: nat, pnode: Inode, m: Inode, r: Rec)
    requires Typed(nodes, dirs) && NoDangling(nodes, dirs) && Addable(nodes, dirs, p, pnode, m, r)
    ensures Typed(With(nodes, p, pnode, r.ino, m), AddTo(dirs, p, r))
  {
    hide Absent, DirShape, NoDangling;
    AddNoClash(nodes, dirs, r);
    DirShapeAppend(p, dirs[p], r);
    DotShape(r.ino, p);
  }

  lemma AddNoDangling(nodes: map<nat, Inode>, dirs: map<nat, seq<Rec>>, p: nat, pnode: Inode, m: Inode, r: Rec)
    requires NoDangling(nodes, dirs) && Addable(nodes, dirs, p, pnode, m, r)
    ensures NoDangling(With(nodes, p, pnode, r.ino, m), AddTo(dirs, p, r))
  {
    hide Absent;
    var nodes', dirs' := With(nodes, p, pnode, r.ino, m), AddTo(dirs, p, r);
    forall k | k in dirs'
      ensures EntriesOk(nodes', dirs', dirs'[k])
    {
      if k in dirs {
        forall i | 0 <= i < |dirs'[k]|
          ensures EntryOk(nodes', dirs', dirs'[k][i])
        {
          if i < |dirs[k]| {
            assert EntriesOk(nodes, dirs, dirs[k]);
            assert EntryOk(nodes, dirs, dirs[k][i]) && dirs'[k][i] == dirs[k][i];
          }
        }
      }
    }
  }

  lemma AddListed(nodes: map<nat, Inode>, dirs: map<nat, seq<Rec>>, up: map<nat, nat>, p: nat, pnode: Inode, m: Inode,
                  r: Rec)
    requires ListedOnce(nodes, dirs, up) && ROOT in nodes && Addable(nodes, dirs, p, pnode, m, r)
    ensures ListedOnce(With(nodes, p, pnode, r.ino, m), AddTo(dirs, p, r), up[r.ino := p])
  {
    hide Absent;
    var dirs', up' := AddTo(dirs, p, r), up[r.ino := p];
    forall k | k in up'
      ensures up'[k] in dirs' && Lists(dirs'[up'[k]], k)
    {
      if k == r.ino {
        ListsLast(dirs[p], r);
      } else {
        var i :| 2 <= i < |dirs[up[k]]| && dirs[up[k]][i].ino == k;
        assert dirs'[up[k]][i] == dirs[up[k]][i];
      }
    }
    forall k | k in dirs'
      ensures ListedBy(dirs'[k], up', k)
    {
      if k in dirs {
        assert ListedBy(dirs[k], up, k);
      }
    }
  }

  lemma ListsLast(recs: seq<Rec>, r: Rec)
    ensures |recs| >= 2 ==> Lists(recs + [r], r.ino)
  {
    if |recs| >= 2 { assert (recs + [r])[|recs|].ino == r.ino; }
  }

  /** Listing a fresh inode in directory p keeps the graph tidy. */
  lemma TidyAdd(nodes: map<nat, Inode>, dirs: map<nat, seq<Rec>>, up: map<nat, nat>, p: nat, pnode: Inode, m: Inode,
                r: Rec)
    requires Tidy(nodes, dirs, up) && Addable(nodes, dirs, p, pnode, m, r)
    ensures Tidy(With(nodes, p, pnode, r.ino, m), AddTo(dirs, p, r), up[r.ino := p])
  {
    hide Absent, NoDangling, ListedOnce, DirShape, Rooted;
    AddTyped(nodes, dirs, p, pnode, m, r);
    AddNoDangling(nodes, dirs, p, pnode, m, r);
    AddListed(nodes, dirs, up, p, pnode, m, r);
    RootUnlisted(nodes, dirs, up);
    assert r.ino !in up;
    RootedAdd(up, r.ino, p);
  }

  lemma RootUnlisted(nodes: map<nat, Inode>, dirs: map<nat, seq<Rec>>, up: map<nat, nat>)
    requires ListedOnce(nodes, dirs, up)
    ensures ROOT !in up && forall k :: k in up ==> k in nodes && up[k] in dirs
  {
  }

  lemma DotShape(k: nat, p: nat)
    ensures DirShape(k, DotRecs(k, p))
  {
    var rs := DotRecs(k, p);
    assert |DOT| != |DOTDOT|;
  }

  /** The directories after unlisting record i of p, and with it the directory it may have led to. */
  function TakeFrom(dirs: map<nat, seq<Rec>>, p: nat, i: nat): (e: map<nat, seq<Rec>>)
    requires p in dirs && i < |dirs[p]|
  {
    dirs[p := Without(dirs[p], i)] - {dirs[p][i].ino}
  }

  /** What it takes to unlist record i of p: if it is a directory, it is empty. */
  ghost predicate Removable(dirs: map<nat, seq<Rec>>, p: nat, i: nat)
  {
    p in dirs && 2 <= i < |dirs[p]| && (dirs[p][i].ino in dirs ==> |dirs[dirs[p][i].ino]| == 2)
  }

  lemma RemovableListed(nodes: map<nat, Inode>, dirs: map<nat, seq<Rec>>, up: map<nat, nat>, p: nat, i: nat)
    requires Tidy(nodes, dirs, up) && Removable(dirs, p, i)
    ensures var k := dirs[p][i].ino; k != ROOT && k != p && k in nodes && k in up && up[k] == p
    ensures forall l :: l in up && up[l] == dirs[p][i].ino ==> dirs[p][i].ino !in dirs
  {
    hide KeysUnique, Typed, NoDangling;
    var k := dirs[p][i].ino;
    assert ListedBy(dirs[p], up, p);
    forall l | l in up && up[l] == k
      ensures k !in dirs
    {
      assert Lists(dirs[up[l]], l);
    }
  }

  /** The inode going away is neither the root nor the directory itself, and nothing else leads to it. */
  lemma RemovableAlone(nodes: map<nat, Inode>, dirs: map<nat, seq<Rec>>, up: map<nat, nat>, p: nat, i: nat)
    requires Tidy(nodes, dirs, up) && Removable(dirs, p, i)
    ensures var k := dirs[p][i].ino;
      && k != ROOT && k != p && k in nodes && k in up && up[k] == p
      && forall l, j :: l in dirs && l != k && 0 <= j < |dirs[l]| && dirs[l][j].ino == k ==> l == p && j == i
    ensures forall l :: l in up && up[l] == dirs[p][i].ino ==> dirs[p][i].ino !in dirs
  {
    hide KeysUnique, NoDangling;
    RemovableListed(nodes, dirs, up, p, i);
    var k := dirs[p][i].ino;
    forall l, j | l in dirs && l != k && 0 <= j < |dirs[l]| && dirs[l][j].ino == k
      ensures l == p && j == i
    {
      hide Lists;
      assert DirShape(l, dirs[l]);
      if j >= 2 {
        assert ListedBy(dirs[l], up, l);
        assert DirShape(p, dirs[p]);
      }
    }
  }

  lemma WithoutShape(k: nat, recs: seq<Rec>, i: nat)
    requires DirShape(k, recs) && 2 <= i < |recs|
    ensures DirShape(k, Without(recs, i))
  {
    var r := Without(recs, i);
    forall a, b | 0 <= a < b < |r|
      ensures !Matches(r[b], r[a].name, r[a].kind == 2)
    {
      var a', b' := if a < i then a else a + 1, if b < i then b else b + 1;
      assert r[a] == recs[a'] && r[b] == recs[b'];
    }
  }

  lemma RemoveTyped(nodes: map<nat, Inode>, dirs: map<nat, seq<Rec>>, p: nat, i: nat, k: nat)
    requires Typed(nodes, dirs) && p in dirs && 2 <= i < |dirs[p]| && k == dirs[p][i].ino && k != ROOT && k != p
    ensures Typed(nodes - {k}, TakeFrom(dirs, p, i))
  {
    hide DirShape;
    WithoutShape(p, dirs[p], i);
  }

  lemma RemoveNoDangling(nodes: map<nat, Inode>, dirs: map<nat, seq<Rec>>, p: nat, i: nat, k: nat)
    requires NoDangling(nodes, dirs) && p in dirs && 2 <= i < |dirs[p]| && k == dirs[p][i].ino && k != p
    requires forall l, j :: l in dirs && l != k && 0 <= j < |dirs[l]| && dirs[l][j].ino == k ==> l == p && j == i
    ensures NoDangling(nodes - {k}, TakeFrom(dirs, p, i))
  {
    var nodes', dirs' := nodes - {k}, TakeFrom(dirs, p, i);
    forall l | l in dirs'
      ensures EntriesOk(nodes', dirs', dirs'[l])
    {
      assert EntriesOk(nodes, dirs, dirs[l]);
      forall j | 0 <= j < |dirs'[l]|
        ensures EntryOk(nodes', dirs', dirs'[l][j])
      {
        var m := if l == p && j >= i then j + 1 else j;
        assert dirs'[l][j] == dirs[l][m] && EntryOk(nodes, dirs, dirs[l][m]);
      }
    }
  }

  lemma RemoveListed(nodes: map<nat, Inode>, dirs: map<nat, seq<Rec>>, up: map<nat, nat>, p: nat, i: nat, k: nat)
    requires ListedOnce(nodes, dirs, up) && p in dirs && 2 <= i < |dirs[p]| && k == dirs[p][i].ino && k != p
    requires forall l, j :: l in dirs && l != k && 0 <= j < |dirs[l]| && dirs[l][j].ino == k ==> l == p && j == i
    requires forall l :: l in up && up[l] == k ==> k !in dirs
    ensures ListedOnce(nodes - {k}, TakeFrom(dirs, p, i), up - {k})
  {
    var dirs', up' := TakeFrom(dirs, p, i), up - {k};
    forall l | l in up'
      ensures up'[l] in dirs' && Lists(dirs'[up'[l]], l)
    {
      assert up[l] != k;
      var j :| 2 <= j < |dirs[up[l]]| && dirs[up[l]][j].ino == l;
      var m := if up[l] == p && j > i then j - 1 else j;
      assert dirs'[up[l]][m] == dirs[up[l]][j];
    }
    forall l | l in dirs'
      ensures ListedBy(dirs'[l], up', l)
    {
      assert ListedBy(dirs[l], up, l);
      forall j | 2 <= j < |dirs'[l]|
        ensures dirs'[l][j].ino in up' && up'[dirs'[l][j].ino] == l
      {
        var m := if l == p && j >= i then j + 1 else j;
        assert dirs'[l][j] == dirs[l][m];
      }
    }
  }

  /** Unlisting a file or an empty directory keeps the graph tidy. */
  lemma TidyRemove(nodes: map<nat, Inode>, dirs: map<nat, seq<Rec>>, up: map<nat, nat>, p: nat, i: nat)
    requires Tidy(nodes, dirs, up) && Removable(dirs, p, i)
    ensures var k := dirs[p][i].ino; Tidy(nodes - {k}, TakeFrom(dirs, p, i), up - {k})
  {
    hide NoDangling, DirShape, Typed, ListedOnce, Rooted;
    RemovableAlone(nodes, dirs, up, p, i);
    var k := dirs[p][i].ino;
    RemoveTyped(nodes, dirs, p, i, k);
    RemoveNoDangling(nodes, dirs, p, i, k);
    RemoveListed(nodes, dirs, up, p, i, k);
    RootedRemove(up, k);
  }

  /** A directory's or file's inode may change as long as its mode does not. */
  lemma TidyUpdate(nodes: map<nat, Inode>, dirs: map<nat, seq<Rec>>, up: map<nat, nat>, k: nat, m: Inode)
    requires Tidy(nodes, dirs, up) && k in nodes && m.mode == nodes[k].mode
    ensures Tidy(nodes[k := m], dirs, up)
  {
    hide DirShape, Lists, Rooted;
    forall l | l in dirs
      ensures EntriesOk(nodes[k := m], dirs, dirs[l])
    {
      assert EntriesOk(nodes, dirs, dirs[l]);
      forall i | 0 <= i < |dirs[l]|
        ensures EntryOk(nodes[k := m], dirs, dirs[l][i])
      {
        assert EntryOk(nodes, dirs, dirs[l][i]);
      }
    }
  }
}
