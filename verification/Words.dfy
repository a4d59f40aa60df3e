/** The shell's tokenizer and its path printer. */
module Words {
  import opened Bytes

  const MAX_ARGC := 8
  const MAX_ARG_LEN := 255
  const QUOTE: byte := 39
  const SLASH: byte := 47
  const FULLPATH_SIZE := 2040

  /** How many bytes come before the first b. */
  function Find(s: seq<byte>, b: byte): (n: nat)
    ensures n <= |s| && b !in s[..n] && (n < |s| ==> s[n] == b)
  {
    if s == [] || s[0] == b then 0
    else
      var n := 1 + Find(s[1..], b);
      assert s[..n] == [s[0]] + s[1..][..n - 1];
      n
  }

  /** How many times b comes first. */
  function Skip(s: seq<byte>, b: byte): (n: nat)
    ensures n <= |s| && (n < |s| ==> s[n] != b) && forall i :: 0 <= i < n ==> s[i] == b
  {
    if s == [] || s[0] != b then 0 else 1 + Skip(s[1..], b)
  }

  function Shortened(w: seq<byte>): (r: seq<byte>)
    ensures |r| < 255 && (if |w| < 255 then r == w else r == w[..254])
  {
    if |w| >= MAX_ARG_LEN then w[..MAX_ARG_LEN - 1] else w
  }

  /** The word at the front, with the bytes it takes: a quoted one reaches to the next quote. */
  function Front(s: seq<byte>, d: byte): (r: (seq<byte>, nat))
    requires s != [] && s[0] != d
    ensures 0 < r.1 <= |s|
  {
    if s[0] == QUOTE then
      var n := Find(s[1..], QUOTE);
      (s[1..n + 1], if n + 1 < |s| then n + 2 else n + 1)
    else
      var n := Find(s, d);
      (s[..n], if n < |s| && s[n] == QUOTE then n + 1 else n)
  }

  /** The first n words of s, shortened, that delimiter d separates. */
  function Tokens(s: seq<byte>, d: byte, n: nat): (ws: seq<seq<byte>>)
    ensures |ws| <= n && forall i :: 0 <= i < |ws| ==> |ws[i]| < MAX_ARG_LEN
    decreases n
  {
    var t := s[Skip(s, d)..];
    if n == 0 || t == [] then []
    else
      var (w, used) := Front(t, d);
      [Shortened(w)] + Tokens(t[used..], d, n - 1)
  }

  /** An argument buffer, of which the first bytes count. */
  datatype Arg = Arg(buffer: seq<byte>, length: nat)

  datatype ParsedInput = ParsedInput(argc: nat, argv: seq<Arg>)

  ghost predicate ArgsOk(p: ParsedInput)
  {
    p.argc <= |p.argv| == MAX_ARGC &&
    forall i :: 0 <= i < MAX_ARGC ==> |p.argv[i].buffer| == MAX_ARG_LEN && p.argv[i].length < MAX_ARG_LEN
  }

  ghost function Args(p: ParsedInput): (ws: seq<seq<byte>>)
    requires ArgsOk(p)
  {
    seq(p.argc, i requires 0 <= i < p.argc => p.argv[i].buffer[..p.argv[i].length])
  }

  /** The first b from index i on, or the end. */
  method ScanTo(s: seq<byte>, b: byte, i: nat) returns (j: nat)
    requires i <= |s|
    ensures i <= j <= |s| && j - i == Find(s[i..], b)
  {
    j := i;
    while j < |s| && s[j] != b
      invariant i <= j <= |s| && Find(s[i..], b) == j - i + Find(s[j..], b)
    {
      assert s[j..][1..] == s[j + 1..];
      j := j + 1;
    }
  }

  /** The first byte other than b from index i on, or the end. */
  method SkipAll(s: seq<byte>, b: byte, i: nat) returns (j: nat)
    requires i <= |s|
    ensures i <= j <= |s| && j - i == Skip(s[i..], b)
  {
    j := i;
    while j < |s| && s[j] == b
      invariant i <= j <= |s| && Skip(s[i..], b) == j - i + Skip(s[j..], b)
    {
      assert s[j..][1..] == s[j + 1..];
      j := j + 1;
    }
  }

  /** One more word. */
  lemma TokensStep(s: seq<byte>, d: byte, n: nat, i: nat, j: nat)
    requires i <= j <= |s| && n > 0 && j - i == Skip(s[i..], d)
    ensures j == |s| ==> Tokens(s[i..], d, n) == []
    ensures j < |s| ==> s[j] != d && (var (w, used) := Front(s[j..], d);
      j + used <= |s| && Tokens(s[i..], d, n) == [Shortened(w)] + Tokens(s[j + used..], d, n - 1))
  {
    hide Front, Skip, Find, Shortened;
    assert s[i..][j - i..] == s[j..];
    if j < |s| {
      assert s[i..][j - i] == s[j] && s[j..][0] == s[j];
      assert s[j..][Front(s[j..], d).1..] == s[j + Front(s[j..], d).1..];
    }
  }

  /** The word that starts at index i, and where reading goes on. */
  method ReadWord(input: seq<byte>, d: byte, i: nat) returns (word: seq<byte>, end: nat)
    requires i < |input| && input[i] != d
    ensures |word| < MAX_ARG_LEN && word == Shortened(Front(input[i..], d).0)
    ensures i < end <= |input| && end - i == Front(input[i..], d).1
    ensures var start := if input[i] == 39 then i + 1 else i;
      var size := Find(input[start..], if input[i] == 39 then 39 else d);
      start + size <= |input| && word == input[start..start + if size < 255 then size else 254] &&
      end == if start + size < |input| && input[start + size] == 39 then start + size + 1 else start + size
  {
    hide Find, Shortened, Front;
    var start := i;
    if input[i] == QUOTE {
      start := i + 1;
      end := ScanTo(input, QUOTE, start);
    } else {
      end := ScanTo(input, d, start);
    }
    FrontIs(input, d, i, start, end);
    var length := end - start;
    if length >= MAX_ARG_LEN {
      length := MAX_ARG_LEN - 1;
    }
    word := input[start..start + length];
    ShortenedIs(input, start, end, length);
    if end < |input| && input[end] == QUOTE {
      end := end + 1;
    }
  }

  /** parse_input_all. */
  method ParseInputAll(input: seq<byte>, d: byte) returns (res: ParsedInput)
    ensures ArgsOk(res) && Args(res) == Tokens(input, d, 8) && |res.argv| == 8
    ensures forall i :: 0 <= i < 8 ==> |res.argv[i].buffer| == 255
  {
    hide Find, Skip, Tokens, Shortened, Front, Args, ArgsOk;
    res := ParsedInput(0, seq(MAX_ARGC, _ => Arg(seq(MAX_ARG_LEN, _ => 0), 0)));
    NoArgs(res);
    assert input[0..] == input;
    var i := 0;
    while i < |input| && res.argc < MAX_ARGC
      invariant i <= |input| && ArgsOk(res) && res.argc <= MAX_ARGC
      invariant Args(res) + Tokens(input[i..], d, MAX_ARGC - res.argc) == Tokens(input, d, MAX_ARGC)
      decreases |input| - i
    {
      ghost var begin := i;
      i := SkipAll(input, d, i);
      TokensStep(input, d, MAX_ARGC - res.argc, begin, i);
      if i >= |input| { break; }
      var word;
      word, i := ReadWord(input, d, i);
      res := AddArg(res, word);
    }
    NoRoom(input[i..], d, MAX_ARGC - res.argc);
    ArgsRoom(res);
  }

  lemma ArgsRoom(p: ParsedInput)
    requires ArgsOk(p)
    ensures p.argc <= |p.argv| == 8 && forall i :: 0 <= i < 8 ==> |p.argv[i].buffer| == 255
  {
  }

  lemma NoArgs(p: ParsedInput)
    requires p.argc == 0 && |p.argv| == MAX_ARGC
    requires forall i :: 0 <= i < MAX_ARGC ==> p.argv[i] == Arg(seq(MAX_ARG_LEN, _ => 0), 0)
    ensures ArgsOk(p) && Args(p) == []
  {
  }

  lemma NoRoom(s: seq<byte>, d: byte, n: nat)
    ensures n == 0 || s == [] ==> Tokens(s, d, n) == []
  {
  }

  lemma ShortenedIs(s: seq<byte>, i: nat, j: nat, n: nat)
    requires i <= j <= |s| && n == if j - i >= MAX_ARG_LEN then MAX_ARG_LEN - 1 else j - i
    ensures Shortened(s[i..j]) == s[i..i + n]
  {
  }

  lemma FrontIs(s: seq<byte>, d: byte, at: nat, start: nat, end: nat)
    requires at <= start <= end <= |s| && at < |s| && s[at] != d
    requires if s[at] == QUOTE then start == at + 1 && Find(s[start..], QUOTE) == end - start
             else start == at && Find(s[start..], d) == end - start
    ensures Front(s[at..], d) == (s[start..end], (if end < |s| && s[end] == QUOTE then end + 1 else end) - at)
  {
    hide Find;
    var t := s[at..];
    if s[at] == QUOTE {
      assert t[1..] == s[start..];
      assert t[1..end - start + 1] == s[start..end];
    } else {
      assert t[..end - start] == s[start..end];
    }
  }

  /** Copy a word into the next argument buffer. */
  method AddArg(p: ParsedInput, w: seq<byte>) returns (q: ParsedInput)
    requires ArgsOk(p) && p.argc < MAX_ARGC && |w| < MAX_ARG_LEN
    ensures ArgsOk(q) && q.argc == p.argc + 1 && Args(q) == Args(p) + [w]
  {
    var arg := Arg(w + p.argv[p.argc].buffer[|w|..], |w|);
    q := ParsedInput(p.argc + 1, p.argv[p.argc := arg]);
  }

  /** Components with slashes between them. */
  function Join(cs: seq<seq<byte>>): (s: seq<byte>)
  {
    if cs == [] then []
    else if |cs| == 1 then cs[0]
    else cs[0] + [SLASH] + Join(cs[1..])
  }

  /** A directory on the way from the root; its name does not fill the buffer. */
  datatype Component = Component(name: seq<byte>, length: nat)

  predicate ComponentOk(c: Component) {
    |c.name| == 255 && c.length <= 255
  }

  class Shell {
    const absolutePath: array<Component>
    var depth: nat
    const fullpath: array<byte>

    ghost predicate Valid()
      reads this, absolutePath
    {
      absolutePath.Length == 8 && fullpath.Length == FULLPATH_SIZE && depth < 8 &&
      forall i :: 0 <= i <= depth ==> ComponentOk(absolutePath[i])
    }

    /** The names from the root to the working directory. */
    ghost function Names(n: nat): (cs: seq<seq<byte>>)
      reads this, absolutePath
      requires Valid() && n <= depth + 1
      ensures |cs| == n && forall i :: 0 <= i < n ==> cs[i] == absolutePath[i].name[..absolutePath[i].length]
    {
      seq(n, i requires Valid() && 0 <= i < n <= depth + 1 reads this, absolutePath =>
        absolutePath[i].name[..absolutePath[i].length])
    }

    /** A shell in the root directory. */
    constructor ()
      ensures Valid() && Names(depth + 1) == [[46]] && fresh(absolutePath) && fresh(fullpath)
      ensures fullpath.Length == 8 * 255
    {
      absolutePath := new Component[8](i =>
        if i == 0 then Component([46] + seq(254, _ => 0), 1) else Component(seq(255, _ => 0), 0));
      fullpath := new byte[FULLPATH_SIZE](_ => 0);
      depth := 0;
    }

    /** get_absolute_path: writes the joined names and nothing else, if they fit. */
    method GetAbsolutePath()
      requires Valid() && |Join(Names(depth + 1))| <= FULLPATH_SIZE
      modifies fullpath
      ensures fullpath[..] == Join(Names(depth + 1)) + old(fullpath[..])[|Join(Names(depth + 1))|..]
    {
      hide Join;
      ghost var all, was := Names(depth + 1), fullpath[..];
      var offset := 0;
      JoinNone();
      for i := 0 to depth + 1
        invariant offset == |Join(all[..i])| <= FULLPATH_SIZE
        invariant fullpath[..] == Join(all[..i]) + was[offset..]
      {
        JoinGrows(all[..i], all, i);
        var name := absolutePath[i].name[..absolutePath[i].length];
        ghost var done := Join(all[..i]);
        if i > 0 {
          CopyIn(fullpath, offset, [SLASH], done, was);
          offset := offset + 1;
          done := done + [SLASH];
        }
        CopyIn(fullpath, offset, name, done, was);
        offset := offset + absolutePath[i].length;
      }
      assert all[..depth + 1] == all;
    }

    /** get_absolute_path_length: exactly what get_absolute_path writes. */
    method GetAbsolutePathLength() returns (res: nat)
      requires Valid()
      ensures res == |Join(Names(depth + 1))|
    {
      res := 0;
      for i := 0 to depth + 1
        invariant res == |Join(Names(i))|
      {
        JoinLast(Names(i), absolutePath[i].name[..absolutePath[i].length]);
        assert Names(i + 1) == Names(i) + [absolutePath[i].name[..absolutePath[i].length]];
        if i > 0 {
          res := res + 1;
        }
        res := res + absolutePath[i].length;
      }
    }
  }

  lemma JoinNone()
    ensures Join([]) == []
  {
  }

  /** memcpy to where the text so far, `done`, ends; behind it the buffer is as it was. */
  method CopyIn(a: array<byte>, at: nat, s: seq<byte>, ghost done: seq<byte>, ghost was: seq<byte>)
    requires at == |done| && at + |s| <= a.Length == |was| && a[..] == done + was[at..]
    modifies a
    ensures a[..] == done + s + was[|done + s|..]
  {
    forall j | 0 <= j < |s| {
      a[at + j] := s[j];
    }
    var n := |s|;
    assert a[..at] == done && a[at..at + n] == s && a[at + n..] == was[at + n..];
    assert a[..] == a[..at] + a[at..at + n] + a[at + n..];
  }

  lemma {:induction false} JoinLast(cs: seq<seq<byte>>, c: seq<byte>)
    ensures Join(cs + [c]) == if cs == [] then c else Join(cs) + [47] + c
  {
    if cs == [] {
      assert cs + [c] == [c];
    } else if |cs| == 1 {
      assert (cs + [c])[1..] == [c];
    } else {
      assert (cs + [c])[1..] == cs[1..] + [c];
      JoinLast(cs[1..], c);
      assert cs[0] + [SLASH] + (Join(cs[1..]) + [SLASH] + c) == cs[0] + [SLASH] + Join(cs[1..]) + [SLASH] + c;
    }
  }

  lemma JoinGrows(cs: seq<seq<byte>>, all: seq<seq<byte>>, i: nat)
    requires i < |all| && cs == all[..i]
    ensures Join(all[..i + 1]) == if i == 0 then Join(cs) + all[i] else Join(cs) + [SLASH] + all[i]
    ensures |Join(all[..i + 1])| <= |Join(all)|
  {
    assert all[..i + 1] == cs + [all[i]];
    JoinLast(cs, all[i]);
    JoinPrefix(all, i + 1);
  }

  lemma {:induction false} JoinPrefix(all: seq<seq<byte>>, i: nat)
    requires i <= |all|
    ensures |Join(all[..i])| <= |Join(all)|
  {
    if i == |all| {
      assert all[..i] == all;
    } else {
      var n := |all| - 1;
      assert all == all[..n] + [all[n]] && all[..n][..i] == all[..i];
      JoinLast(all[..n], all[n]);
      JoinPrefix(all[..n], i);
    }
  }

  /** A word the tokenizer returns as it stands. */
  predicate Plain(w: seq<byte>, d: byte)
  {
    0 < |w| < MAX_ARG_LEN && w[0] != QUOTE && d !in w
  }

  predicate AllPlain(ws: seq<seq<byte>>, d: byte)
  {
    forall i :: 0 <= i < |ws| ==> Plain(ws[i], d)
  }

  lemma {:induction false} FindEnd(w: seq<byte>, rest: seq<byte>, d: byte)
    requires d !in w && (rest == [] || rest[0] == d)
    ensures Find(w + rest, d) == |w|
  {
    if w == [] {
      assert w + rest == rest;
    } else {
      assert w[0] in w && (w + rest)[1..] == w[1..] + rest;
      FindEnd(w[1..], rest, d);
    }
  }

  /** A plain word followed by a delimiter, or by nothing. */
  lemma TokensPlain(w: seq<byte>, rest: seq<byte>, d: byte, n: nat)
    requires Plain(w, d) && d != QUOTE && n > 0 && (rest == [] || rest[0] == d)
    ensures Tokens(w + rest, d, n) == [w] + Tokens(rest, d, n - 1)
  {
    hide Find;
    var s := w + rest;
    assert s[0] == w[0] && w[0] in w;
    FindEnd(w, rest, d);
    assert s[0..] == s && s[..|w|] == w && s[|w|..] == rest;
  }

  lemma TokensSkip(s: seq<byte>, d: byte, n: nat)
    requires s != [] && s[0] == d
    ensures Tokens(s, d, n) == Tokens(s[1..], d, n)
  {
    assert s[Skip(s, d)..] == s[1..][Skip(s[1..], d)..];
  }

  lemma {:induction false} TokensOfJoin(cs: seq<seq<byte>>, n: nat)
    requires |cs| <= n && AllPlain(cs, SLASH)
    ensures Tokens(Join(cs), SLASH, n) == cs
    decreases |cs|
  {
    hide Tokens, Plain;
    if cs == [] {
      NoRoom([], SLASH, n);
    } else if |cs| == 1 {
      TokensPlain(cs[0], [], SLASH, n);
      NoRoom([], SLASH, n - 1);
      assert cs[0] + [] == cs[0];
    } else {
      var rest := [SLASH] + Join(cs[1..]);
      assert Join(cs) == cs[0] + rest && rest[1..] == Join(cs[1..]);
      TokensPlain(cs[0], rest, SLASH, n);
      TokensSkip(rest, SLASH, n - 1);
      TokensOfJoin(cs[1..], n - 1);
    }
  }

  /** Bytes the words take with one separator after each. */
  function Weight(ws: seq<seq<byte>>): (n: nat)
  {
    if ws == [] then 0 else |ws[0]| + 1 + Weight(ws[1..])
  }

  lemma {:induction false} JoinWeight(cs: seq<seq<byte>>)
    requires cs != []
    ensures |Join(cs)| + 1 == Weight(cs)
  {
    if |cs| > 1 { JoinWeight(cs[1..]); }
  }

  /** What the word at the front takes from the input. */
  lemma FrontCost(t: seq<byte>, d: byte)
    requires t != [] && t[0] != d && d != QUOTE
    ensures var (w, used) := Front(t, d);
      if t[0] == QUOTE then used == if |w| + 1 < |t| then |w| + 2 else |w| + 1
      else |w| == used && w != [] && w[0] != QUOTE && d !in w && (used < |t| ==> t[used] == d)
  {
    var n := Find(t, d);
    assert t[..n] != [] ==> t[..n][0] == t[0];
  }

  lemma TokensUnfold(s: seq<byte>, d: byte, n: nat, k: nat)
    requires k == Skip(s, d) && k < |s| && n > 0
    ensures var (w, used) := Front(s[k..], d); Tokens(s, d, n) == [Shortened(w)] + Tokens(s[k..][used..], d, n - 1)
  {
    hide Find, Shortened, Skip, Front;
  }

  lemma OneMore(w: seq<byte>, vs: seq<seq<byte>>, d: byte)
    ensures Weight([w] + vs) == |w| + 1 + Weight(vs)
    ensures Plain(w, d) && AllPlain(vs, d) ==> AllPlain([w] + vs, d)
    ensures Weight([]) == 0
  {
    hide Plain;
    assert ([w] + vs)[1..] == vs;
  }

  lemma PlainIs(w: seq<byte>, d: byte)
    ensures |Shortened(w)| <= |w| &&
      (w != [] && w[0] != QUOTE && d !in w && |Shortened(w)| == |w| ==> Plain(Shortened(w), d))
  {
  }

  /** The words take at most the room of m bytes, and all of it only if every one is plain. */
  ghost predicate Within(ws: seq<seq<byte>>, d: byte, m: nat)
  {
    Weight(ws) <= m + 1 && (Weight(ws) == m + 1 ==> AllPlain(ws, d))
  }

  lemma WithinMore(t: seq<byte>, d: byte, vs: seq<seq<byte>>, m: nat)
    requires t != [] && t[0] != d && d != QUOTE && |t| <= m
    requires var rest := t[Front(t, d).1..];
      && Within(vs, d, |rest|) && (rest == [] ==> vs == [])
      && (rest != [] && rest[0] == d ==> Within(vs, d, |rest| - 1))
    ensures Within([Shortened(Front(t, d).0)] + vs, d, m)
  {
    hide Find, Shortened, Front, Plain, AllPlain, Weight;
    var (w, used) := Front(t, d);
    FrontCost(t, d);
    OneMore(Shortened(w), vs, d);
    PlainIs(w, d);
    NoneNotPlain(d);
    var rest := t[used..];
    assert |rest| == |t| - used && (used < |t| ==> rest[0] == t[used]);
  }

  /** Words never take more room than the input, and all of it only if every one is plain. */
  lemma {:induction false} TokensWeight(s: seq<byte>, d: byte, n: nat)
    requires d != QUOTE
    ensures Within(Tokens(s, d, n), d, |s|)
    decreases n
  {
    hide Find, Shortened, Skip, Front, Plain, AllPlain, Weight, Within, Tokens;
    var k := Skip(s, d);
    if n > 0 && k < |s| {
      var rest := s[k..][Front(s[k..], d).1..];
      TokensUnfold(s, d, n, k);
      TokensWeight(rest, d, n - 1);
      NoRoom(rest, d, n - 1);
      if rest != [] && rest[0] == d {
        TokensSkip(rest, d, n - 1);
        TokensWeight(rest[1..], d, n - 1);
      }
      WithinMore(s[k..], d, Tokens(rest, d, n - 1), |s|);
    } else {
      NoWords(s, d, n);
    }
  }

  lemma NoWords(s: seq<byte>, d: byte, n: nat)
    requires n == 0 || Skip(s, d) == |s|
    ensures Within(Tokens(s, d, n), d, |s|)
  {
  }

  lemma NoneNotPlain(d: byte)
    ensures AllPlain([], d) && Weight([]) == 0
  {
  }

  /**
    Printing the working directory and splitting the result gives back the components exactly when there are at most
    8, and each is non-empty, shorter than an argument buffer, free of slashes, and does not start with a quote.
   */
  lemma PathRoundTrip(cs: seq<seq<byte>>)
    requires cs != []
    ensures Tokens(Join(cs), 47, 8) == cs <==> (|cs| <= 8 && AllPlain(cs, 47))
  {
    hide Tokens, Plain, Join;
    if |cs| <= MAX_ARGC && AllPlain(cs, SLASH) {
      TokensOfJoin(cs, MAX_ARGC);
    }
    if Tokens(Join(cs), SLASH, MAX_ARGC) == cs {
      TokensWeight(Join(cs), SLASH, MAX_ARGC);
      JoinWeight(cs);
    }
  }

  /** Words in quotes, with spaces between. */
  function Quoted(ws: seq<seq<byte>>): (s: seq<byte>)
  {
    if ws == [] then [] else [QUOTE] + ws[0] + [QUOTE] + (if |ws| == 1 then [] else [SPACE] + Quoted(ws[1..]))
  }

  const SPACE: byte := 32

  lemma FrontQuoted(w: seq<byte>, rest: seq<byte>, d: byte)
    requires QUOTE !in w && d != QUOTE
    ensures Front([QUOTE] + w + [QUOTE] + rest, d) == (w, |w| + 2)
  {
    hide Find;
    var s := [QUOTE] + w + [QUOTE] + rest;
    FindEnd(w, [QUOTE] + rest, QUOTE);
    assert s[1..] == w + ([QUOTE] + rest);
    assert s[1..|w| + 1] == w;
  }

  lemma TokensQuoted(w: seq<byte>, rest: seq<byte>, n: nat)
    requires QUOTE !in w && |w| < MAX_ARG_LEN && n > 0
    ensures Tokens([39] + w + [39] + rest, 32, n) == [w] + Tokens(rest, 32, n - 1)
  {
    hide Find, Front, Tokens;
    var s := [QUOTE] + w + [QUOTE] + rest;
    FrontQuoted(w, rest, SPACE);
    assert s[0] == QUOTE && Skip(s, SPACE) == 0;
    TokensUnfold(s, SPACE, n, 0);
    assert s[0..] == s && s[|w| + 2..] == rest;
  }

  /** Quoting keeps any words without quotes, even empty ones and ones with spaces, apart. */
  lemma {:induction false} QuotedRoundTrip(ws: seq<seq<byte>>, n: nat)
    requires |ws| <= n && forall i :: 0 <= i < |ws| ==> QUOTE !in ws[i] && |ws[i]| < MAX_ARG_LEN
    ensures Tokens(Quoted(ws), SPACE, n) == ws
    decreases |ws|
  {
    hide Tokens;
    if ws == [] {
      NoRoom([], SPACE, n);
    } else if |ws| == 1 {
      TokensQuoted(ws[0], [], n);
      NoRoom([], SPACE, n - 1);
    } else {
      var rest := [SPACE] + Quoted(ws[1..]);
      TokensQuoted(ws[0], rest, n);
      TokensSkip(rest, SPACE, n - 1);
      assert rest[1..] == Quoted(ws[1..]);
      QuotedRoundTrip(ws[1..], n - 1);
    }
  }
}
