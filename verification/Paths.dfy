/** Resolving paths, and splitting off the last component. */
module Paths {
  import opened Bytes
  import opened Geometry
  import opened Inodes
  import opened Space
  import opened BlockTree
  import opened Ownership
  import opened DirRecords
  import opened Volumes
  import opened InodeTable
  import opened Directory
  import opened Invariant
  import opened FileSystem
  import opened ReadDelete

  const SLASH: byte := 47

  /** Bytes before the first slash. */
  function TokenLen(s: seq<byte>): (n: nat)
    ensures n <= |s| && SLASH !in s[..n] && (n < |s| ==> s[n] == SLASH)
  {
    if s == [] || s[0] == SLASH then 0
    else
      var n := 1 + TokenLen(s[1..]);
      assert s[..n] == [s[0]] + s[1..][..n - 1];
      n
  }

  /** The non-empty pieces between slashes. */
  function Components(s: seq<byte>): (c: seq<seq<byte>>)
    decreases |s|
  {
    if s == [] then []
    else if s[0] == SLASH then Components(s[1..])
    else [s[..TokenLen(s)]] + Components(s[TokenLen(s)..])
  }

  lemma {:induction false} TokenLenAppend(s: seq<byte>, t: seq<byte>)
    requires t == [] || t[0] == SLASH
    ensures TokenLen(s + t) == TokenLen(s)
  {
    if s == [] {
      assert s + t == t;
    } else if s[0] != SLASH {
      assert (s + t)[1..] == s[1..] + t;
      TokenLenAppend(s[1..], t);
    }
  }

  lemma TokenLenPositive(s: seq<byte>)
    ensures s != [] && s[0] != SLASH ==> TokenLen(s) > 0
  {
  }

  lemma {:induction false} ComponentsAppend(p: seq<byte>, t: seq<byte>)
    requires t == [] || t[0] == SLASH
    ensures Components(p + t) == Components(p) + Components(t)
    decreases |p|
  {
    if p == [] {
      assert p + t == t;
    } else if p[0] == SLASH {
      assert (p + t)[1..] == p[1..] + t;
      ComponentsAppend(p[1..], t);
    } else {
      hide TokenLen;
      var n := TokenLen(p);
      TokenLenAppend(p, t);
      TokenLenPositive(p);
      assert (p + t)[..n] == p[..n];
      assert (p + t)[n..] == p[n..] + t;
      ComponentsAppend(p[n..], t);
    }
  }

  /** A slash anywhere separates: together with the two laws below this determines `Components`. */
  lemma ComponentsConcat(p: seq<byte>, q: seq<byte>)
    ensures Components(p + [47] + q) == Components(p) + Components(q)
  {
    ComponentsAppend(p, [SLASH] + q);
    assert p + [SLASH] + q == p + ([SLASH] + q);
    assert ([SLASH] + q)[1..] == q;
  }

  /** A piece without slashes is its own only component. */
  lemma ComponentsToken(p: seq<byte>)
    requires p != [] && 47 !in p
    ensures Components(p) == [p]
  {
    assert forall i :: 0 <= i < |p| ==> p[i] in p;
    assert p[..|p|] == p && p[|p|..] == [];
  }

  /** Repeated and trailing slashes make no difference. */
  lemma ComponentsSlashes(p: seq<byte>, q: seq<byte>)
    ensures Components(p + [47] + [47] + q) == Components(p + [47] + q)
    ensures Components(p + [47]) == Components(p)
  {
    ComponentsConcat(p + [SLASH], q);
    ComponentsConcat(p, []);
    ComponentsConcat(p, q);
    assert p + [SLASH] + [] == p + [SLASH];
  }

  /** Outcome of resolving a path: a directory, a file, nothing there, or no component at all. */
  datatype Outcome = IsDir(ino: nat) | IsFile(ino: nat) | Missing | Nothing

  /** The inode of the first record with this key, 0 if there is none. */
  function Lookup(recs: seq<Rec>, name: seq<byte>, directory: bool): (k: nat)
  {
    if recs == [] then 0
    else if Matches(recs[0], name, directory) then recs[0].ino
    else Lookup(recs[1..], name, directory)
  }

  lemma {:induction false} LookupAt(recs: seq<Rec>, name: seq<byte>, directory: bool, at: nat)
    requires at < |recs| && Matches(recs[at], name, directory)
    requires forall i :: 0 <= i < at ==> !Matches(recs[i], name, directory)
    ensures Lookup(recs, name, directory) == recs[at].ino
  {
    if at > 0 {
      LookupAt(recs[1..], name, directory, at - 1);
    }
  }

  lemma {:induction false} LookupAbsent(recs: seq<Rec>, name: seq<byte>, directory: bool)
    requires Absent(recs, name, directory)
    ensures Lookup(recs, name, directory) == 0
  {
    if recs != [] {
      assert forall i :: 0 <= i < |recs[1..]| ==> recs[1..][i] == recs[i + 1];
      LookupAbsent(recs[1..], name, directory);
    }
  }

  /** The last component: a directory if there is one of that name, else a file. */
  function Final(recs: seq<Rec>, name: seq<byte>): (r: Outcome)
  {
    if Lookup(recs, name, true) != 0 then IsDir(Lookup(recs, name, true))
    else if Lookup(recs, name, false) != 0 then IsFile(Lookup(recs, name, false))
    else Missing
  }

  /** Looking components up one after the other: directories on the way, a directory or else a file at the end. */
  function Resolve(dirs: map<nat, seq<Rec>>, cur: nat, comps: seq<seq<byte>>): (r: Outcome)
    decreases |comps|
  {
    if comps == [] then Nothing
    else if cur !in dirs then Missing
    else if |comps| == 1 then Final(dirs[cur], comps[0])
    else
      var k := Lookup(dirs[cur], comps[0], true);
      if k == 0 then Missing else Resolve(dirs, k, comps[1..])
  }

  /** The code of one lookup, tying the record found to `Lookup`. */
  method LookupEntry(fs: Volume, cur: nat, name: seq<byte>, directory: bool) returns (found: bool, k: nat)
    requires Valid(fs) && cur in fs.dirs && cur in fs.nodes
    ensures found <==> Lookup(fs.dirs[cur], name, directory) != 0
    ensures found ==> k == Lookup(fs.dirs[cur], name, directory) && k in fs.nodes && (k in fs.dirs <==> directory)
    ensures |name| > 255 || name == [] ==> !found
  {
    hide IsMeta, Owned, SpaceOk, Chain, InodeAt, InodeUsed, Tidy, FileBlocks, Layout, Absent, Synced, Contents,
      Matches, TreeOk, DirShape, DirOn;
    ValidDir(fs, cur);
    NamesBounded(fs, cur, name, directory);
    var node := ReadInode(fs, cur);
    var ino, kind;
    ghost var at;
    found, ino, kind, at := FindEntry(fs, node, name, directory, fs.trees[cur], fs.dirs[cur]);
    k := ino;
    if found {
      LookupAt(fs.dirs[cur], name, directory, at);
      EntryLeads(fs, cur, at);
      MatchesKind(fs.dirs[cur][at], name, directory);
      assert 0 !in fs.nodes by { NoInodeZero(fs); }
    } else {
      LookupAbsent(fs.dirs[cur], name, directory);
    }
  }

  lemma NoInodeZero(fs: Volume)
    requires Valid(fs)
    ensures 0 !in fs.nodes
  {
  }

  /** Names on disk have 1 to 255 bytes. */
  lemma NamesBounded(fs: Volume, cur: nat, name: seq<byte>, directory: bool)
    requires Valid(fs) && cur in fs.dirs && cur in fs.trees
    ensures |name| > 255 || name == [] ==> Absent(fs.dirs[cur], name, directory)
  {
    hide IsMeta, Owned, SpaceOk, Tidy, FileBlocks, Synced;
    var c, recs := FileBlocks(fs.blocks, fs.trees[cur].data), fs.dirs[cur];
    assert Chain(c, recs);
    forall i | 0 <= i < |recs|
      ensures 0 < |recs[i].name| <= 255
    {
      ChainParts(c, recs, i);
    }
  }

  lemma SkipSlash(path: seq<byte>, i: nat)
    requires i < |path| && path[i] == SLASH
    ensures Components(path[i..]) == Components(path[i + 1..])
  {
    assert path[i..][1..] == path[i + 1..];
  }

  /** The component that starts at index i. */
  function TokenFrom(path: seq<byte>, i: nat): (t: seq<byte>)
    requires i <= |path|
    ensures i + |t| <= |path| && t == path[i..i + |t|]
    ensures SLASH !in t && (i + |t| < |path| ==> path[i + |t|] == SLASH)
  {
    assert path[i..][..TokenLen(path[i..])] == path[i..i + TokenLen(path[i..])];
    path[i..][..TokenLen(path[i..])]
  }

  lemma TokenAt(path: seq<byte>, i: nat)
    requires i < |path| && path[i] != SLASH
    ensures var t := TokenFrom(path, i);
      t != [] && Components(path[i..]) == [t] + Components(path[i + |t|..])
  {
    assert path[i..][TokenLen(path[i..])..] == path[i + |TokenFrom(path, i)|..];
  }

  /** What the next component decides. */
  lemma ResolveStep(dirs: map<nat, seq<Rec>>, cur: nat, path: seq<byte>, i: nat)
    requires i < |path| && path[i] != SLASH && cur in dirs
    ensures var t := TokenFrom(path, i);
      var k := Lookup(dirs[cur], t, true);
      Resolve(dirs, cur, Components(path[i..])) ==
      if Components(path[i + |t|..]) == [] then Final(dirs[cur], t)
      else if k == 0 then Missing
      else Resolve(dirs, k, Components(path[i + |t|..]))
  {
    hide Lookup, Final, Components, TokenFrom;
    TokenAt(path, i);
    var t := TokenFrom(path, i);
    var cs, rest := Components(path[i..]), Components(path[i + |t|..]);
    assert cs[0] == t && cs[1..] == rest;
  }

  /** No component is left exactly when only slashes are. */
  lemma {:induction false} OnlySlashes(s: seq<byte>)
    ensures Components(s) == [] <==> forall i :: 0 <= i < |s| ==> s[i] == SLASH
    decreases |s|
  {
    if s != [] && s[0] == SLASH {
      OnlySlashes(s[1..]);
      assert forall i :: 1 <= i < |s| ==> s[i] == s[1..][i - 1];
    }
  }

  /** First index from i on that holds no slash, or the end. */
  method SkipSlashes(path: seq<byte>, i: nat) returns (j: nat)
    requires i <= |path|
    ensures i <= j <= |path| && (j < |path| ==> path[j] != SLASH)
    ensures Components(path[j..]) == Components(path[i..])
    ensures j == |path| <==> Components(path[i..]) == []
  {
    j := i;
    while j < |path| && path[j] == SLASH
      invariant i <= j <= |path|
      invariant Components(path[j..]) == Components(path[i..])
    {
      hide Components;
      SkipSlash(path, j);
      j := j + 1;
    }
    if j < |path| {
      hide Components, TokenFrom;
      TokenAt(path, j);
    }
  }

  /** Copy a component, at most 256 bytes of it. */
  method CopyToken(path: seq<byte>, i: nat) returns (token: seq<byte>, j: nat)
    requires i < |path| && path[i] != SLASH
    ensures var t := TokenFrom(path, i);
      token == if |t| < 256 then t else t[..256]
    ensures j == i + |token|
  {
    hide TokenLen, TokenFrom;
    ghost var t := TokenFrom(path, i);
    j := i;
    token := [];
    while j < |path| && path[j] != SLASH && |token| < 256
      invariant |token| <= |t| && |token| <= 256 && j == i + |token|
      invariant token == t[..|token|]
    {
      assert |token| < |t| && t[|token|] == path[j];
      token := token + [path[j]];
      j := j + 1;
    }
    if |token| < |t| {
      assert path[j] == t[|token|] && t[|token|] in t;
    }
  }

  /**
    exist_ext2: -1 for a path of 512 bytes or more; otherwise the left-to-right lookup of the
    components, whatever their length and however many slashes separate them.
   */
  method Exist(fs: Volume, base: nat, path: seq<byte>) returns (code: int, res: nat)
    requires Valid(fs) && base in fs.dirs
    ensures |path| >= 512 ==> code == -1
    ensures |path| < 512 ==>
      match Resolve(fs.dirs, base, Components(path))
      case IsDir(k) => code == 0 && res == k
      case IsFile(k) => code == 1 && res == k
      case Missing => code == 2
      case Nothing => code == -1
  {
    hide Valid, Lookup, Matches, IsMeta, Components, TokenLen, TokenFrom, Resolve, Final;
    res := 0;
    if |path| >= 512 {
      return -1, res;
    }
    var i := 0;
    var cur := base;
    ghost var goal := Resolve(fs.dirs, base, Components(path));
    assert path[0..] == path;
    while i < |path|
      invariant 0 <= i <= |path| && cur in fs.dirs
      invariant Resolve(fs.dirs, cur, Components(path[i..])) == goal
      decreases |path| - i
    {
      i := SkipSlashes(path, i);
      if i < |path| {
        ghost var t, rest := TokenFrom(path, i), Components(path[i + |TokenFrom(path, i)|..]);
        ResolveStep(fs.dirs, cur, path, i);
        TokenAt(path, i);
        LongMissing(fs, cur, t);
        DirLive(fs, cur);
        var token;
        token, i := CopyToken(path, i);
        var k := SkipSlashes(path, i);
        var isLast := k >= |path|;
        var name := token[..|token| % 256];
        assert |t| < 256 ==> name == t && (isLast <==> rest == []);
        FinalIs(fs.dirs[cur], t);
        var found, child := LookupEntry(fs, cur, name, true);
        if !found && isLast {
          found, child := LookupEntry(fs, cur, name, false);
          if !found {
            return 2, res;
          }
        } else if !found {
          return 2, res;
        }
        var node := ChildInode(fs, child);
        if isLast {
          res := child;
          code := if FileType(node.mode) == MODE_DIR then 0 else if FileType(node.mode) == 0x8000 then 1 else -1;
          return;
        }
        if FileType(node.mode) != MODE_DIR {
          assert false;
          return 3, res;
        }
        cur := child;
      }
    }
    NothingLeft(fs.dirs, cur, path);
    code := -1;
  }

  lemma FinalIs(recs: seq<Rec>, name: seq<byte>)
    ensures Lookup(recs, name, true) != 0 ==> Final(recs, name) == IsDir(Lookup(recs, name, true))
    ensures Lookup(recs, name, true) == 0 && Lookup(recs, name, false) != 0 ==>
      Final(recs, name) == IsFile(Lookup(recs, name, false))
    ensures Lookup(recs, name, true) == 0 && Lookup(recs, name, false) == 0 ==> Final(recs, name) == Missing
  {
    hide Lookup;
  }

  lemma NothingLeft(dirs: map<nat, seq<Rec>>, cur: nat, path: seq<byte>)
    ensures Resolve(dirs, cur, Components(path[|path|..])) == Nothing
  {
  }

  lemma DirLive(fs: Volume, k: nat)
    requires Valid(fs) && k in fs.dirs
    ensures k in fs.nodes && k in fs.trees
  {
    ValidKeys(fs, k);
    ValidNode(fs, k);
  }

  /** Nothing on disk has a name of 256 bytes or more. */
  lemma LongMissing(fs: Volume, cur: nat, name: seq<byte>)
    requires Valid(fs) && cur in fs.dirs
    ensures |name| > 255 ==> Lookup(fs.dirs[cur], name, true) == 0 && Lookup(fs.dirs[cur], name, false) == 0
  {
    hide Valid;
    if |name| > 255 {
      DirLive(fs, cur);
      NamesBounded(fs, cur, name, true);
      NamesBounded(fs, cur, name, false);
      LookupAbsent(fs.dirs[cur], name, true);
      LookupAbsent(fs.dirs[cur], name, false);
    }
  }

  /** The type bits of a live inode. */
  method ChildInode(fs: Volume, k: nat) returns (node: Inode)
    requires Valid(fs) && k in fs.nodes
    ensures FileType(node.mode) == if k in fs.dirs then MODE_DIR else 0x8000
  {
    hide IsMeta, Owned, SpaceOk, InodeAt, InodeUsed, Tidy, Synced, Contents, DirShape, DirOn, Layout, TreeOk;
    ValidDir(fs, k);
    node := ReadInode(fs, k);
    ModeOf(fs, k);
  }

  lemma ModeOf(fs: Volume, k: nat)
    requires Valid(fs) && k in fs.nodes
    ensures FileType(fs.nodes[k].mode) == if k in fs.dirs then MODE_DIR else 0x8000
  {
    hide IsMeta, Owned, SpaceOk, Synced, Contents, DirShape, NoDangling, ListedOnce, DotDots;
    assert Typed(fs.nodes, fs.dirs);
  }

  /** The last component starts here: only slashes follow it. */
  ghost predicate Cut(path: seq<byte>, cut: nat)
  {
    && cut < |path| && path[cut] != SLASH && (cut > 0 ==> path[cut - 1] == SLASH)
    && Components(path[cut + |TokenFrom(path, cut)|..]) == []
  }

  function ParentPart(path: seq<byte>, cut: nat): (r: seq<byte>)
    requires cut <= |path|
  {
    if cut == 0 then DOT + [SLASH] else path[..cut]
  }

  function LeafPart(path: seq<byte>, cut: nat): (r: seq<byte>)
    requires cut <= |path|
  {
    if |path| - cut <= 255 then path[cut..] else path[cut..cut + 255]
  }

  /** Splitting before the last component splits off exactly that component. */
  lemma CutComponents(path: seq<byte>, cut: nat)
    requires Cut(path, cut)
    ensures var t := TokenFrom(path, cut);
      && Components(path) == Components(path[..cut]) + [t]
      && Components(LeafPart(path, cut)) == [if |t| <= 255 then t else t[..255]]
  {
    hide TokenLen, TokenFrom, Components;
    var t := TokenFrom(path, cut);
    TokenAt(path, cut);
    assert Components(path[cut..]) == [t];
    if cut > 0 {
      assert path[..cut] == path[..cut - 1] + [SLASH];
      assert path == path[..cut - 1] + [SLASH] + path[cut..];
      ComponentsConcat(path[..cut - 1], path[cut..]);
      ComponentsSlashes(path[..cut - 1], []);
    } else {
      assert path[0..] == path;
      NoComponents();
    }
    LeafComponents(path, cut);
  }

  lemma NoComponents()
    ensures Components([]) == []
  {
  }

  lemma LeafComponents(path: seq<byte>, cut: nat)
    requires Cut(path, cut)
    ensures var t := TokenFrom(path, cut);
      Components(LeafPart(path, cut)) == [if |t| <= 255 then t else t[..255]]
  {
    hide TokenLen, TokenFrom, Components;
    var t, leaf := TokenFrom(path, cut), LeafPart(path, cut);
    TokenAt(path, cut);
    var n := cut + |t|;
    if |t| <= 255 {
      OnlySlashes(path[n..]);
      var tail := leaf[|t|..];
      assert forall i :: 0 <= i < |tail| ==> tail[i] == path[n..][i];
      OnlySlashes(tail);
      assert leaf == t + tail;
      ComponentsAppend(t, tail);
      ComponentsToken(t);
    } else {
      assert leaf == t[..255];
      ComponentsToken(leaf);
    }
  }

  lemma {:induction false} ResolveInit(dirs: map<nat, seq<Rec>>, cur: nat, cs: seq<seq<byte>>, last: seq<byte>, p: nat)
    requires Resolve(dirs, cur, cs) == IsDir(p)
    ensures Resolve(dirs, cur, cs + [last]) == Resolve(dirs, p, [last])
    decreases |cs|
  {
    hide Lookup;
    if |cs| == 1 {
      assert (cs + [last])[1..] == [last];
    } else {
      assert (cs + [last])[1..] == cs[1..] + [last];
      ResolveInit(dirs, Lookup(dirs[cur], cs[0], true), cs[1..], last, p);
    }
  }

  lemma ResolveDot(dirs: map<nat, seq<Rec>>, base: nat)
    requires base in dirs && DirShape(base, dirs[base]) && base != 0
    ensures Resolve(dirs, base, Components(DOT + [SLASH])) == IsDir(base)
  {
    hide KeysUnique, Components, TokenLen;
    ComponentsToken(DOT);
    ComponentsSlashes(DOT, []);
    LookupAt(dirs[base], DOT, true, 0);
  }

  lemma SplitResolvesIn(dirs: map<nat, seq<Rec>>, base: nat, path: seq<byte>, cut: nat, p: nat)
    requires Cut(path, cut) && base in dirs && base != 0 && DirShape(base, dirs[base])
    requires Resolve(dirs, base, Components(ParentPart(path, cut))) == IsDir(p) && p in dirs
    requires forall l :: Lookup(dirs[p], l, true) != 0 || Lookup(dirs[p], l, false) != 0 ==> |l| <= 255
    ensures var t := TokenFrom(path, cut);
      Resolve(dirs, base, Components(path)) == Resolve(dirs, p, Components(LeafPart(path, cut))) <==>
      (|t| <= 255 || Final(dirs[p], t[..255]) == Missing)
  {
    hide Lookup, Components, TokenFrom, DirShape, TokenLen;
    CutComponents(path, cut);
    var t := TokenFrom(path, cut);
    if cut == 0 {
      ResolveDot(dirs, base);
      NoComponents();
      assert path[..0] == [];
      assert [] + [t] == [t];
    } else {
      ResolveInit(dirs, base, Components(path[..cut]), t, p);
    }
  }

  lemma {:induction false} LookupFound(recs: seq<Rec>, name: seq<byte>, directory: bool) returns (at: nat)
    requires Lookup(recs, name, directory) != 0
    ensures at < |recs| && recs[at].ino == Lookup(recs, name, directory) && Matches(recs[at], name, directory)
  {
    if Matches(recs[0], name, directory) {
      at := 0;
    } else {
      at := LookupFound(recs[1..], name, directory);
      at := at + 1;
    }
  }

  /** Directories are found among directories. */
  lemma {:induction false} ResolvedLive(fs: Volume, base: nat, cs: seq<seq<byte>>)
    requires Valid(fs) && base in fs.dirs
    ensures Resolve(fs.dirs, base, cs).IsDir? ==> Resolve(fs.dirs, base, cs).ino in fs.dirs
    decreases |cs|
  {
    hide Valid, Lookup, Matches;
    if cs != [] && Lookup(fs.dirs[base], cs[0], true) != 0 {
      var at := LookupFound(fs.dirs[base], cs[0], true);
      DirLive(fs, base);
      EntryLeads(fs, base, at);
      MatchesKind(fs.dirs[base][at], cs[0], true);
      ResolvedLive(fs, fs.dirs[base][at].ino, cs[1..]);
    }
  }

  /**
    Where the parent half of a split path leads to a directory p, the whole path leads where the leaf half
    leads from p, unless the component is over 255 bytes and p holds an entry named by its first 255.
   */
  lemma SplitResolves(fs: Volume, base: nat, path: seq<byte>, cut: nat, p: nat)
    requires Valid(fs) && base in fs.dirs && Cut(path, cut)
    requires Resolve(fs.dirs, base, Components(ParentPart(path, cut))) == IsDir(p)
    ensures p in fs.dirs
    ensures var t := TokenFrom(path, cut);
      Resolve(fs.dirs, base, Components(path)) == Resolve(fs.dirs, p, Components(LeafPart(path, cut))) <==>
      (|t| <= 255 || Final(fs.dirs[p], t[..255]) == Missing)
  {
    hide Valid, Lookup, Components, TokenFrom, DirShape, TokenLen, Resolve, ParentPart, LeafPart, Final;
    ResolvedLive(fs, base, Components(ParentPart(path, cut)));
    DirLive(fs, base);
    BaseShape(fs, base);
    forall l | Lookup(fs.dirs[p], l, true) != 0 || Lookup(fs.dirs[p], l, false) != 0
      ensures |l| <= 255
    {
      LongMissing(fs, p, l);
    }
    SplitResolvesIn(fs.dirs, base, path, cut, p);
  }

  lemma BaseShape(fs: Volume, base: nat)
    requires Valid(fs) && base in fs.dirs
    ensures DirShape(base, fs.dirs[base]) && base != 0
  {
    hide IsMeta, Owned, SpaceOk, Synced, Contents, Tidy, DirShape, DirOn, TreeOk, Layout, Valid;
    DirLive(fs, base);
    ValidDir(fs, base);
  }

  /** A C string in a buffer. */
  ghost predicate HoldsString(a: array<byte>, s: seq<byte>)
    reads a
  {
    |s| < a.Length && a[..|s|] == s && a[|s|] == 0 && 0 !in s
  }

  /**
    split_path.  It stays inside its arrays exactly when some byte of the path is not a slash, without which the scan
    for trailing slashes runs off the front of the string, and the last component starts before byte 512.
   */
  method SplitPath(path: seq<byte>, parentOut: array<byte>, leafOut: array<byte>)
      returns (inBounds: bool, ghost cut: nat)
    requires 0 !in path
    requires parentOut.Length == 512 && leafOut.Length == 256 && parentOut != leafOut
    modifies parentOut, leafOut
    ensures Components(path) != [] ==> Cut(path, cut)
    ensures inBounds <==> Components(path) != [] && cut < 512
    ensures inBounds ==> HoldsString(parentOut, ParentPart(path, cut)) && HoldsString(leafOut, LeafPart(path, cut))
  {
    hide Components, TokenLen, TokenFrom, Cut, LeafPart, ParentPart, HoldsString;
    var slash := |path|;
    cut := 0;
    OnlySlashes(path);
    while slash == 0 || path[slash - 1] == SLASH
      invariant 0 <= slash <= |path|
      invariant forall i :: slash <= i < |path| ==> path[i] == SLASH
      decreases slash
    {
      if slash == 0 {
        return false, cut;
      }
      slash := slash - 1;
    }
    ghost var end := slash;
    while slash > 0 && path[slash - 1] != SLASH
      invariant 0 <= slash <= end <= |path|
      invariant forall i :: slash <= i < end ==> path[i] != SLASH
    {
      slash := slash - 1;
    }
    cut := slash;
    CutHere(path, cut, end);
    var i := 0;
    while i < slash && i < 511
      invariant 0 <= i <= slash && i <= 511
      invariant parentOut[..i] == path[..i]
    {
      parentOut[i] := path[i];
      i := i + 1;
    }
    if slash >= 512 {
      return false, cut;
    }
    parentOut[slash] := 0;
    Terminated(parentOut, path[..slash]);
    var j := 0;
    i := slash;
    while i < |path| && j < 255
      invariant slash <= i <= |path| && j == i - slash <= 255
      invariant leafOut[..j] == path[slash..i]
      invariant HoldsString(parentOut, path[..slash])
    {
      leafOut[j] := path[i];
      j := j + 1;
      i := i + 1;
    }
    leafOut[j] := 0;
    LeafIs(path, slash, i);
    Terminated(leafOut, path[slash..i]);
    if slash == 0 {
      parentOut[0] := 46;
      parentOut[1] := SLASH;
      parentOut[2] := 0;
      Terminated(parentOut, DOT + [SLASH]);
    }
    ParentIs(path, slash);
    inBounds := true;
  }

  /** A path has only one last component. */
  lemma CutUnique(path: seq<byte>, cut: nat, other: nat)
    requires Cut(path, cut) && Cut(path, other)
    ensures cut == other
  {
    hide Components, TokenLen, TokenFrom;
    if cut < other {
      CutApart(path, cut, other);
    } else if other < cut {
      CutApart(path, other, cut);
    }
  }

  lemma CutApart(path: seq<byte>, cut: nat, other: nat)
    requires Cut(path, cut) && other < |path| && path[other] != SLASH && other > 0 && path[other - 1] == SLASH
    ensures other <= cut
  {
    hide Components, TokenLen, TokenFrom;
    var t := TokenFrom(path, cut);
    var rest := path[cut + |t|..];
    OnlySlashes(rest);
    forall i | cut <= i < |path|
      ensures path[i] != SLASH <==> i < cut + |t|
    {
      if i < cut + |t| {
        assert t[i - cut] in t && t[i - cut] == path[i];
      } else {
        assert rest[i - cut - |t|] == path[i];
      }
    }
  }

  /** The root's own path, which `copy_cp` hands over unchecked, is not read in bounds. */
  method SplitSlash(parentOut: array<byte>, leafOut: array<byte>) returns (inBounds: bool)
    requires parentOut.Length == 512 && leafOut.Length == 256 && parentOut != leafOut
    modifies parentOut, leafOut
    ensures !inBounds
  {
    ghost var cut;
    OnlySlashes([SLASH]);
    inBounds, cut := SplitPath([SLASH], parentOut, leafOut);
  }

  lemma Terminated(a: array<byte>, s: seq<byte>)
    requires |s| < a.Length && a[..|s|] == s && a[|s|] == 0 && 0 !in s
    ensures HoldsString(a, s)
  {
  }

  lemma LeafIs(path: seq<byte>, cut: nat, i: nat)
    requires cut <= i <= |path| && i - cut <= 255 && (i == |path| || i == cut + 255)
    ensures LeafPart(path, cut) == path[cut..i]
  {
  }

  lemma ParentIs(path: seq<byte>, cut: nat)
    requires cut <= |path|
    ensures ParentPart(path, cut) == if cut == 0 then DOT + [SLASH] else path[..cut]
  {
  }

  lemma CutHere(path: seq<byte>, cut: nat, end: nat)
    requires cut < end <= |path| && (cut > 0 ==> path[cut - 1] == SLASH)
    requires forall i :: cut <= i < end ==> path[i] != SLASH
    requires forall i :: end <= i < |path| ==> path[i] == SLASH
    ensures Cut(path, cut)
  {
    hide Components, TokenLen, TokenFrom;
    var t := TokenFrom(path, cut);
    TokenAt(path, cut);
    assert t[|t| - 1] in t && t[|t| - 1] == path[cut + |t| - 1];
    assert cut + |t| == end;
    assert forall i :: 0 <= i < |path[end..]| ==> path[end..][i] == path[end + i];
    OnlySlashes(path[end..]);
  }
}
