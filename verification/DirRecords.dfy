/**
  Directory records: a chain of byte records in the blocks of a directory.  A record is a
  9-byte header (inode, distance to the next record, name length, type) and the name; distance 0
  ends the directory.
 */
module DirRecords {
  import opened Bytes

  /** One directory record: its byte position in the directory's data, inode number, file type and name. */
  datatype Rec = Rec(pos: nat, ino: nat, kind: nat, name: seq<byte>)

  const KIND_FILE: byte := 1
  const KIND_DIR: byte := 2

  /** get_entry_record_len: header plus name, padded to a multiple of four. */
  function EntryLen(n: nat): (len: nat)
    ensures n + 9 <= len <= n + 12 && len % 4 == 0
  {
    (n + 9 + 3) / 4 * 4
  }

  /** Header of a record. */
  function Header(ino: u32, recLen: u16, nameLen: u16, kind: byte): (h: seq<byte>)
    ensures |h| == 9 && U32(h, 0) == ino && U16(h, 4) == recLen && U16(h, 6) == nameLen && h[8] == kind
  {
    Enc32(ino) + Enc16(recLen) + Enc16(nameLen) + [kind]
  }

  /** Block b holds record r at offset o, with the given distance to the next record. */
  ghost predicate RecIn(b: Block, o: nat, r: Rec, len: nat)
  {
    && 0 < |r.name| <= 255 && o + EntryLen(|r.name|) <= 512
    && r.ino != 0 && U32(b, o) == r.ino && U16(b, o + 4) == len && U16(b, o + 6) == |r.name|
    && b[o + 8] == r.kind && b[o + 9..o + 9 + |r.name|] == r.name
  }

  /** Distance from record i to the next, 0 at the end. */
  function Step(recs: seq<Rec>, i: nat): (len: int)
    requires i < |recs|
  {
    if i + 1 < |recs| then recs[i + 1].pos - recs[i].pos else 0
  }

  /** Record s follows record r: not overlapping it, in the same block or the next. */
  predicate Follows(r: Rec, s: Rec)
  {
    r.pos + EntryLen(|r.name|) <= s.pos && s.pos / 512 <= r.pos / 512 + 1
  }

  ghost predicate RecAt(c: seq<Block>, recs: seq<Rec>, i: nat)
    requires i < |recs|
  {
    recs[i].pos / 512 < |c| && 0 <= Step(recs, i) &&
      RecIn(c[recs[i].pos / 512], recs[i].pos % 512, recs[i], Step(recs, i))
  }

  /**
    The blocks hold exactly this chain of records; no record straddles a block, and the last lies in the last block.
   */
  ghost predicate Chain(c: seq<Block>, recs: seq<Rec>)
  {
    && |recs| >= 1 && recs[0].pos == 0
    && (forall i: nat :: i < |recs| ==> RecAt(c, recs, i))
    && (forall i: nat :: i + 1 < |recs| ==> Follows(recs[i], recs[i + 1]))
    && recs[|recs| - 1].pos / 512 == |c| - 1
  }

  /** Records are identified by name together with being a directory or not. */
  predicate Matches(r: Rec, name: seq<byte>, directory: bool)
  {
    r.name == name && (r.kind == 2) == directory
  }

  ghost predicate KeysUnique(recs: seq<Rec>)
  {
    forall i, j :: 0 <= i < j < |recs| ==> !Matches(recs[j], recs[i].name, recs[i].kind == 2)
  }

  /** No record has this key. */
  ghost predicate Absent(recs: seq<Rec>, name: seq<byte>, directory: bool)
  {
    forall i :: 0 <= i < |recs| ==> !Matches(recs[i], name, directory)
  }

  /** A record depends only on its own bytes. */
  lemma RecInFrame(b: Block, e: Block, o: nat, r: Rec, len: nat)
    requires RecIn(b, o, r, len)
    requires forall i :: o <= i < o + 9 + |r.name| ==> e[i] == b[i]
    ensures RecIn(e, o, r, len)
  {
    assert e[o + 9..o + 9 + |r.name|] == b[o + 9..o + 9 + |r.name|];
  }

  /** Only the distance field changes. */
  lemma RecInRelink(b: Block, e: Block, o: nat, r: Rec, len: nat, len': nat)
    requires RecIn(b, o, r, len)
    requires forall i :: o <= i < o + 9 + |r.name| && !(o + 4 <= i < o + 6) ==> e[i] == b[i]
    requires U16(e, o + 4) == len'
    ensures RecIn(e, o, r, len')
  {
    assert e[o + 9..o + 9 + |r.name|] == b[o + 9..o + 9 + |r.name|];
  }

  /** A freshly written record. */
  lemma RecInNew(b: Block, o: nat, r: Rec, ino: u32, len: u16, kind: byte, e: Block)
    requires 0 < |r.name| <= 255 && o + EntryLen(|r.name|) <= 512
    requires r.ino == ino && ino != 0 && r.kind == kind
    requires e == Splice(Splice(b, o, Header(ino, len, |r.name|, kind)), o + 9, r.name)
    ensures RecIn(e, o, r, len)
  {
    hide U32, U16;
    var h := Header(ino, len, |r.name|, kind);
    assert forall i :: 0 <= i < 9 ==> e[o + i] == h[i];
    SameWord(e, o, h, 0);
    SameHalf(e, o + 4, h, 4);
    SameHalf(e, o + 6, h, 6);
    assert e[o + 9..o + 9 + |r.name|] == r.name;
  }

  lemma {:induction false} ChainOrder(recs: seq<Rec>, i: nat, j: nat)
    requires forall k: nat :: k + 1 < |recs| ==> Follows(recs[k], recs[k + 1])
    requires i < j < |recs|
    ensures recs[i].pos + EntryLen(|recs[i].name|) <= recs[j].pos
    ensures recs[i].pos / 512 <= recs[j].pos / 512
  {
    if j > i + 1 {
      ChainOrder(recs, i, j - 1);
      assert Follows(recs[j - 1], recs[j - 1 + 1]);
    } else {
      assert Follows(recs[i], recs[i + 1]);
    }
  }

  lemma ChainParts(c: seq<Block>, recs: seq<Rec>, i: nat)
    requires Chain(c, recs) && i < |recs|
    ensures recs[i].pos / 512 < |c| && 0 <= Step(recs, i)
    ensures RecIn(c[recs[i].pos / 512], recs[i].pos % 512, recs[i], Step(recs, i))
    ensures i + 1 < |recs| ==> Follows(recs[i], recs[i + 1])
    ensures i + 1 < |recs| ==> 12 <= Step(recs, i) < 1024
  {
    assert RecAt(c, recs, i);
  }

  lemma ChainIntro(c: seq<Block>, recs: seq<Rec>)
    requires |recs| >= 1 && recs[0].pos == 0
    requires forall i: nat :: i < |recs| ==> RecAt(c, recs, i)
    requires forall i: nat :: i + 1 < |recs| ==> Follows(recs[i], recs[i + 1])
    requires recs[|recs| - 1].pos / 512 == |c| - 1
    ensures Chain(c, recs)
  {
  }

  /** A record that ends before byte `limit` of block k survives any change from there on. */
  lemma KeepRec(c: seq<Block>, recs: seq<Rec>, i: nat, j: nat, k: nat, e: Block)
    requires Chain(c, recs) && i < j < |recs| && k < |c| && recs[j].pos / 512 == k
    requires forall x :: 0 <= x < recs[j].pos % 512 ==> e[x] == c[k][x]
    ensures recs[i].pos / 512 < |c| && 0 <= Step(recs, i)
    ensures RecIn(c[k := e][recs[i].pos / 512], recs[i].pos % 512, recs[i], Step(recs, i))
  {
    hide RecIn;
    ChainParts(c, recs, i);
    ChainOrder(recs, i, j);
    if recs[i].pos / 512 == k {
      RecInBounds(c[k], recs[i].pos % 512, recs[i], Step(recs, i));
      RecInFrame(c[k], e, recs[i].pos % 512, recs[i], Step(recs, i));
    }
  }

  lemma RecInBounds(b: Block, o: nat, r: Rec, len: nat)
    requires RecIn(b, o, r, len)
    ensures 0 < |r.name| <= 255 && o + EntryLen(|r.name|) <= 512 && r.ino != 0
  {
  }

  /** Appending a record right after the last one. */
  lemma AppendInPlace(c: seq<Block>, recs: seq<Rec>, e: Block, r: Rec)
    requires Chain(c, recs)
    requires var last := recs[|recs| - 1]; var o, cur := last.pos % 512, EntryLen(|last.name|);
      && r.pos == last.pos + cur && o + cur + EntryLen(|r.name|) <= 512
      && (forall i :: 0 <= i < o + cur && !(o + 4 <= i < o + 6) ==> e[i] == c[|c| - 1][i])
      && U16(e, o + 4) == cur && RecIn(e, o + cur, r, 0)
    ensures Chain(c[|c| - 1 := e], recs + [r])
  {
    hide RecIn, U16;
    var n, k := |recs| - 1, |c| - 1;
    var last := recs[n];
    var o, cur := last.pos % 512, EntryLen(|last.name|);
    var rs, cs := recs + [r], c[k := e];
    assert r.pos / 512 == k && r.pos % 512 == o + cur;
    forall i: nat | i < |rs|
      ensures RecAt(cs, rs, i)
    {
      if i < n {
        KeepRec(c, recs, i, n, k, e);
        assert rs[i] == recs[i] && Step(rs, i) == Step(recs, i);
      } else if i == n {
        ChainParts(c, recs, n);
        RecInRelink(c[k], e, o, last, 0, cur);
        assert Step(rs, n) == cur;
      }
    }
    forall i: nat | i + 1 < |rs|
      ensures Follows(rs[i], rs[i + 1])
    {
      if i < n { assert Follows(recs[i], recs[i + 1]); }
    }
    ChainIntro(cs, rs);
  }

  /** Appending a record at the start of a new block. */
  lemma AppendNewBlock(c: seq<Block>, recs: seq<Rec>, e: Block, f: Block, r: Rec)
    requires Chain(c, recs)
    requires var o := recs[|recs| - 1].pos % 512;
      && (forall i :: 0 <= i < 512 && !(o + 4 <= i < o + 6) ==> e[i] == c[|c| - 1][i])
      && o + 6 <= 512 && U16(e, o + 4) == 512 - o
    requires r.pos == 512 * |c| && RecIn(f, 0, r, 0)
    ensures Chain(c[|c| - 1 := e] + [f], recs + [r])
  {
    hide RecIn, U16;
    var n, k := |recs| - 1, |c| - 1;
    var last := recs[n];
    var o := last.pos % 512;
    var rs, cs := recs + [r], c[k := e] + [f];
    ChainParts(c, recs, n);
    RecInBounds(c[k], o, last, 0);
    forall i: nat | i < |rs|
      ensures RecAt(cs, rs, i)
    {
      if i < n {
        KeepRec(c, recs, i, n, k, e);
        assert rs[i] == recs[i] && Step(rs, i) == Step(recs, i);
      } else if i == n {
        RecInRelink(c[k], e, o, last, 0, 512 - o);
        assert Step(rs, n) == 512 - o;
      }
    }
    forall i: nat | i + 1 < |rs|
      ensures Follows(rs[i], rs[i + 1])
    {
      if i < n { assert Follows(recs[i], recs[i + 1]); }
    }
    ChainIntro(cs, rs);
  }

  /** Record i is the last of its block but not of the directory. */
  predicate Skipped(recs: seq<Rec>, i: nat)
  {
    i + 1 < |recs| && recs[i + 1].pos / 512 != recs[i].pos / 512
  }

  /**
    What taking record i out does to the bytes of a directory: its inode field is zeroed, and its predecessor, perhaps
    in the block before, gets another distance.
   */
  ghost predicate Rewritten(c: seq<Block>, e: seq<Block>, recs: seq<Rec>, i: nat, len: nat)
    requires 1 <= i < |recs|
  {
    var k, o, kp, p := recs[i].pos / 512, recs[i].pos % 512, recs[i - 1].pos / 512, recs[i - 1].pos % 512;
    && |e| == |c| && k < |c| && kp < |c| && o + 4 <= 512 && p + 6 <= 512
    && (forall q, x :: 0 <= q < |c| && 0 <= x < 512 ==>
          (q == k && o <= x < o + 4) || (q == kp && p + 4 <= x < p + 6) || e[q][x] == c[q][x])
    && U32(e[k], o) == 0 && U16(e[kp], p + 4) == len
  }

  /** The distance that takes record i out cleanly. */
  function Bridged(recs: seq<Rec>, i: nat): (len: int)
    requires 1 <= i < |recs|
  {
    if i + 1 < |recs| then Step(recs, i - 1) + Step(recs, i) else 0
  }

  function Without(recs: seq<Rec>, i: nat): (r: seq<Rec>)
    requires i < |recs|
    ensures |r| == |recs| - 1
    ensures forall j :: 0 <= j < |r| ==> r[j] == recs[if j < i then j else j + 1]
  {
    recs[..i] + recs[i + 1..]
  }

  /** Every other record keeps its bytes, but for the predecessor's distance. */
  lemma RewrittenRec(c: seq<Block>, recs: seq<Rec>, e: seq<Block>, i: nat, len: nat, m: nat)
    requires Chain(c, recs) && 1 <= i < |recs| && m < |recs| && m != i && Rewritten(c, e, recs, i, len)
    ensures recs[m].pos / 512 < |e|
    ensures m != i - 1 ==> 0 <= Step(recs, m)
    ensures var q, o := recs[m].pos / 512, recs[m].pos % 512;
      RecIn(e[q], o, recs[m], if m == i - 1 then len else Step(recs, m))
  {
    hide RecIn, U16, U32, EntryLen, Step, Chain;
    ChainParts(c, recs, m);
    ChainParts(c, recs, i);
    ChainParts(c, recs, i - 1);
    var q, o := recs[m].pos / 512, recs[m].pos % 512;
    RecInBounds(c[q], o, recs[m], Step(recs, m));
    RecInBounds(c[recs[i].pos / 512], recs[i].pos % 512, recs[i], Step(recs, i));
    RecInBounds(c[recs[i - 1].pos / 512], recs[i - 1].pos % 512, recs[i - 1], Step(recs, i - 1));
    Apart(c, recs, m, i);
    if m == i - 1 {
      RecInRelink(c[q], e[q], o, recs[m], Step(recs, m), len);
    } else {
      Apart(c, recs, m, i - 1);
      RecInFrame(c[q], e[q], o, recs[m], Step(recs, m));
    }
  }

  /** Two records of one block lie apart in it. */
  lemma Apart(c: seq<Block>, recs: seq<Rec>, i: nat, j: nat)
    requires Chain(c, recs) && i < |recs| && j < |recs| && i != j
    ensures recs[i].pos / 512 == recs[j].pos / 512 ==>
      if i < j then recs[i].pos % 512 + EntryLen(|recs[i].name|) <= recs[j].pos % 512
      else recs[j].pos % 512 + EntryLen(|recs[j].name|) <= recs[i].pos % 512
  {
    hide EntryLen, RecAt;
    if i < j { ChainOrder(recs, i, j); } else { ChainOrder(recs, j, i); }
  }

  lemma RemovedAt(c: seq<Block>, recs: seq<Rec>, e: seq<Block>, i: nat, len: nat, j: nat)
    requires Chain(c, recs) && 1 <= i < |recs| && j < |recs| - 1 && Rewritten(c, e, recs, i, len) &&
      len == Bridged(recs, i)
    ensures RecAt(e, Without(recs, i), j)
  {
    hide RecIn, U16, U32, EntryLen, Chain, Rewritten;
    var rs, m := Without(recs, i), if j < i then j else j + 1;
    RewrittenRec(c, recs, e, i, len, m);
    assert rs[j] == recs[m];
    assert Step(rs, j) == if m == i - 1 then len else Step(recs, m);
  }

  lemma FollowsOver(c: seq<Block>, recs: seq<Rec>, i: nat)
    requires Chain(c, recs) && 1 <= i < |recs| - 1 && !Skipped(recs, i)
    ensures Follows(recs[i - 1], recs[i + 1])
  {
    hide EntryLen, RecAt;
    ChainOrder(recs, i - 1, i + 1);
    assert Follows(recs[i - 1], recs[i - 1 + 1]);
  }

  /**
    Bridging over a record that is not passed over leaves the chain of all the others, in order; the last one can only
    go if its predecessor then lies in the last block.
   */
  lemma RemoveRec(c: seq<Block>, recs: seq<Rec>, e: seq<Block>, i: nat, len: nat)
    requires Chain(c, recs) && 1 <= i < |recs| && !Skipped(recs, i) && Rewritten(c, e, recs, i, len) &&
      len == Bridged(recs, i)
    requires i == |recs| - 1 ==> recs[i - 1].pos / 512 == recs[i].pos / 512
    ensures Chain(e, Without(recs, i))
  {
    hide RecIn, U16, U32, EntryLen, RecAt, Follows;
    var rs := Without(recs, i);
    forall j: nat | j < |rs|
      ensures RecAt(e, rs, j)
    {
      RemovedAt(c, recs, e, i, len, j);
    }
    forall j: nat | j + 1 < |rs|
      ensures Follows(rs[j], rs[j + 1])
    {
      if j == i - 1 {
        FollowsOver(c, recs, i);
      } else {
        var m := if j < i then j else j + 1;
        assert Follows(recs[m], recs[m + 1]);
      }
    }
    ChainIntro(e, rs);
  }

  /** Any chain on the rewritten bytes runs through the same positions up to record i - 1. */
  lemma {:induction false} SameStart(c: seq<Block>, recs: seq<Rec>, e: seq<Block>, i: nat, len: nat, y: seq<Rec>,
                                     j: nat)
    requires Chain(c, recs) && 1 <= i < |recs| && Rewritten(c, e, recs, i, len) && Chain(e, y) && j < i
    ensures j < |y| && y[j].pos == recs[j].pos
    ensures Step(y, j) == if j == i - 1 then len else Step(recs, j)
  {
    hide U16, U32, EntryLen, Chain, Rewritten;
    ChainFirst(c, recs);
    ChainFirst(e, y);
    if j > 0 {
      SameStart(c, recs, e, i, len, y, j - 1);
      ChainParts(c, recs, j - 1);
    }
    ChainParts(e, y, j);
    RewrittenRec(c, recs, e, i, len, j);
  }

  lemma ChainFirst(c: seq<Block>, recs: seq<Rec>)
    requires Chain(c, recs)
    ensures |recs| >= 1 && recs[0].pos == 0 && recs[|recs| - 1].pos / 512 == |c| - 1
  {
  }

  /** These blocks hold no chain of records at all. */
  ghost predicate NoChain(c: seq<Block>)
  {
    forall y :: !Chain(c, y)
  }

  /** A record whose inode field was zeroed but which is still reached leaves no chain. */
  lemma DeadRecord(c: seq<Block>, recs: seq<Rec>, e: seq<Block>, i: nat, len: nat)
    requires Chain(c, recs) && 1 <= i < |recs| && Rewritten(c, e, recs, i, len) && len == Step(recs, i - 1)
    ensures NoChain(e)
  {
    hide U16, U32, EntryLen, Chain;
    forall y: seq<Rec>
      ensures !Chain(e, y)
    {
      if Chain(e, y) {
        SameStart(c, recs, e, i, len, y, i - 1);
        ChainParts(c, recs, i - 1);
        ChainParts(e, y, i);
      }
    }
  }

  /** Neither does a chain cut off before the last block. */
  lemma CutOff(c: seq<Block>, recs: seq<Rec>, e: seq<Block>, i: nat, len: nat)
    requires Chain(c, recs) && 1 <= i < |recs| && Rewritten(c, e, recs, i, len) && len == 0
    requires recs[i - 1].pos / 512 < |c| - 1
    ensures NoChain(e)
  {
    hide U16, U32, EntryLen, Chain, RecIn;
    forall y: seq<Rec>
      ensures !Chain(e, y)
    {
      if Chain(e, y) {
        SameStart(c, recs, e, i, len, y, i - 1);
        ChainFirst(e, y);
        if i < |y| { ChainParts(e, y, i - 1); }
      }
    }
  }

  lemma OneBlock(c: seq<Block>, recs: seq<Rec>)
    requires Chain(c, recs) && |c| == 1
    ensures forall j :: 0 <= j < |recs| ==> recs[j].pos < 512
  {
    forall j: nat | j < |recs|
      ensures recs[j].pos < 512
    {
      ChainParts(c, recs, j);
    }
  }

  /** The records of a new directory. */
  function DotRecs(self: nat, parent: nat): (recs: seq<Rec>)
  {
    [Rec(0, self, 2, DOT), Rec(12, parent, 2, DOTDOT)]
  }

  const DOT: seq<byte> := [46]
  const DOTDOT: seq<byte> := [46, 46]

  lemma InitChain(e: Block, self: nat, parent: nat)
    requires RecIn(e, 0, Rec(0, self, 2, DOT), 12) && RecIn(e, 12, Rec(12, parent, 2, DOTDOT), 0)
    ensures Chain([e], DotRecs(self, parent)) && KeysUnique(DotRecs(self, parent))
  {
    hide RecIn;
    var rs := DotRecs(self, parent);
    assert RecAt([e], rs, 0) && RecAt([e], rs, 1);
    assert Follows(rs[0], rs[1]);
    assert DOT[0] == DOTDOT[0] && |DOT| != |DOTDOT|;
  }
}
