/** Physical frames and the page directories that map them. */
module Paging {
  const FRAMES := 32
  const DIRECTORIES := 32
  const ENTRIES := 1024
  const KERNEL_PAGE := 0x300
  /** The kernel's own directory, kept beside the ones that are handed out. */
  const KERNEL_DIRECTORY := 32
  const PAGE_FRAME_SIZE := 0x40_0000

  datatype Flags = Flags(present: bool, write: bool, user: bool, writeThrough: bool, cacheDisabled: bool,
                         accessed: bool, dirty: bool, large: bool)

  /** A directory entry; `rest` stands for the global, PAT and ignored bits. */
  datatype Entry = Entry(flags: Flags, rest: nat, higher: nat, lower: nat)

  const NO_FLAGS := Flags(false, false, false, false, false, false, false, false)
  const USER_FLAGS := Flags(true, true, true, false, false, false, false, true)
  const NO_ENTRY := Entry(NO_FLAGS, 0, 0, 0)
  const KERNEL_ENTRY := Entry(NO_FLAGS.(present := true, write := true, large := true), 0, 0, 0)

  datatype State = State(frames: seq<bool>, free: int, used: seq<bool>, tables: seq<seq<Entry>>)

  function Unused(frames: seq<bool>): (n: nat)
    ensures n <= |frames|
  {
    if frames == [] then 0 else Unused(frames[..|frames| - 1]) + if frames[|frames| - 1] then 0 else 1
  }

  predicate Mapped(e: Entry) {
    e.flags.present && e.flags.user
  }

  ghost predicate Shape(s: State)
  {
    |s.frames| == FRAMES && |s.used| == DIRECTORIES && |s.tables| == DIRECTORIES + 1 &&
    forall d :: 0 <= d < |s.tables| ==> |s.tables[d]| == ENTRIES
  }

  /** Entry i of directory d lets user code into a frame. */
  ghost predicate UserAt(s: State, d: nat, i: nat)
  {
    d < |s.tables| && i < |s.tables[d]| && Mapped(s.tables[d][i])
  }

  ghost function FrameAt(s: State, d: nat, i: nat): (f: nat)
    requires UserAt(s, d, i)
  {
    s.tables[d][i].lower
  }

  ghost predicate Backed(s: State)
  {
    forall d: nat, i: nat :: UserAt(s, d, i) ==>
      s.tables[d][i].higher == 0 && FrameAt(s, d, i) < |s.frames| && s.frames[FrameAt(s, d, i)]
  }

  ghost predicate Exclusive(s: State)
  {
    forall d: nat, i: nat, e: nat, j: nat ::
      UserAt(s, d, i) && UserAt(s, e, j) && FrameAt(s, d, i) == FrameAt(s, e, j) ==> d == e && i == j
  }

  ghost predicate Clean(s: State)
  {
    forall d, i :: 0 <= d < |s.tables| && 0 <= i < |s.tables[d]| ==> s.tables[d][i].higher == 0
  }

  /** User code may write whatever it may reach, and every mapping is of four megabytes. */
  ghost predicate Writable(s: State)
  {
    forall d: nat, i: nat :: UserAt(s, d, i) ==> s.tables[d][i].flags.write && s.tables[d][i].flags.large
  }

  /**
    The counter is the number of unused frames; user mappings are writable and lead to used frames, no two to the same
    one.
   */
  ghost predicate Sound(s: State)
  {
    Shape(s) && s.free == Unused(s.frames) && Clean(s) && Backed(s) && Exclusive(s) && Writable(s)
  }

  /** The first unused frame. */
  ghost predicate FirstFree(frames: seq<bool>, f: nat)
  {
    f < |frames| && !frames[f] && forall g :: 0 <= g < f ==> frames[g]
  }

  /** The first clear bit; the length if there is none. */
  function FirstClear(bits: seq<bool>): (i: nat)
    ensures i <= |bits| && (i < |bits| ==> !bits[i]) && forall j :: 0 <= j < i ==> bits[j]
  {
    if bits == [] || !bits[0] then 0 else
      var i := 1 + FirstClear(bits[1..]);
      assert forall j :: 1 <= j < i ==> bits[j] == bits[1..][j - 1];
      i
  }

  ghost function SetEntry(s: State, d: nat, i: nat, e: Entry): (t: State)
    requires Shape(s) && d <= DIRECTORIES && i < ENTRIES
    ensures Shape(t) && forall c, j :: 0 <= c <= DIRECTORIES && 0 <= j < ENTRIES ==>
      t.tables[c][j] == if c == d && j == i then e else s.tables[c][j]
  {
    s.(tables := s.tables[d := s.tables[d][i := e]])
  }

  /** Frame f becomes used and mapped at entry i of directory d. */
  ghost function Take(s: State, d: nat, i: nat, f: nat): (t: State)
    requires Shape(s) && d <= DIRECTORIES && i < ENTRIES && f < FRAMES
    ensures Shape(t)
  {
    var t := SetEntry(s, d, i, s.tables[d][i].(flags := USER_FLAGS, lower := f));
    t.(frames := s.frames[f := true], free := s.free - 1)
  }

  /** The frame mapped there becomes unused. */
  ghost function Give(s: State, d: nat, i: nat): (t: State)
    requires Shape(s) && UserAt(s, d, i) && FrameAt(s, d, i) < FRAMES
    ensures Shape(t)
  {
    SetEntry(s, d, i, NO_ENTRY).(frames := s.frames[FrameAt(s, d, i) := false], free := s.free + 1)
  }

  ghost function SetTable(s: State, d: nat, live: bool): (t: State)
    requires Shape(s) && d < DIRECTORIES
    ensures Shape(t)
  {
    var empty := seq(ENTRIES, _ => NO_ENTRY);
    s.(used := s.used[d := live], tables := s.tables[d := if live then empty[KERNEL_PAGE := KERNEL_ENTRY] else empty])
  }

  lemma {:induction false} UnusedUpdate(frames: seq<bool>, f: nat, b: bool)
    requires f < |frames|
    ensures Unused(frames[f := b]) == Unused(frames) + (if frames[f] then 1 else 0) - (if b then 1 else 0)
  {
    var n := |frames| - 1;
    if f < n {
      assert frames[f := b][..n] == frames[..n][f := b];
      UnusedUpdate(frames[..n], f, b);
    } else {
      assert frames[f := b][..n] == frames[..n];
    }
  }

  lemma TakeSound(s: State, d: nat, i: nat, f: nat)
    requires Sound(s) && d <= DIRECTORIES && i < ENTRIES && FirstFree(s.frames, f)
    ensures Sound(Take(s, d, i, f))
  {
    UnusedUpdate(s.frames, f, true);
    var t := Take(s, d, i, f);
    TakeEntries(s, d, i, f);
    forall c: nat, j: nat | UserAt(t, c, j) && !(c == d && j == i)
      ensures UserAt(s, c, j) && FrameAt(s, c, j) == FrameAt(t, c, j) && FrameAt(s, c, j) != f
    {
    }
  }

  lemma TakeEntries(s: State, d: nat, i: nat, f: nat)
    requires Shape(s) && d <= DIRECTORIES && i < ENTRIES && f < FRAMES
    ensures var t := Take(s, d, i, f); UserAt(t, d, i) && FrameAt(t, d, i) == f
  {
  }

  lemma GiveSound(s: State, d: nat, i: nat)
    requires Sound(s) && UserAt(s, d, i)
    ensures Sound(Give(s, d, i))
  {
    UnusedUpdate(s.frames, FrameAt(s, d, i), false);
    var t := Give(s, d, i);
    forall c: nat, j: nat | UserAt(t, c, j)
      ensures !(c == d && j == i) && UserAt(s, c, j) && FrameAt(s, c, j) == FrameAt(t, c, j)
    {
    }
  }

  lemma SetTableSound(s: State, d: nat, live: bool)
    requires Sound(s) && d < DIRECTORIES
    ensures Sound(SetTable(s, d, live)) && forall i: nat :: !UserAt(SetTable(s, d, live), d, i)
  {
    var t := SetTable(s, d, live);
    forall c: nat, j: nat | UserAt(t, c, j)
      ensures c != d && UserAt(s, c, j) && FrameAt(s, c, j) == FrameAt(t, c, j)
    {
    }
  }

  /** Mapping a page and unmapping it again gives back frame map and counter, and everything if the entry was clear. */
  lemma TakeThenGive(s: State, d: nat, i: nat, f: nat)
    requires Sound(s) && d <= DIRECTORIES && i < ENTRIES && FirstFree(s.frames, f)
    ensures var t := Take(s, d, i, f);
      && UserAt(t, d, i) && FrameAt(t, d, i) == f && Give(t, d, i) == SetEntry(s, d, i, NO_ENTRY)
      && (Give(t, d, i) == s <==> s.tables[d][i] == NO_ENTRY)
  {
    TakeEntries(s, d, i, f);
    var t := Take(s, d, i, f);
    var u := Give(t, d, i);
    assert u.frames == s.frames;
    assert u.tables[d] == s.tables[d][i := NO_ENTRY];
    assert u.tables == SetEntry(s, d, i, NO_ENTRY).tables;
    if s.tables[d][i] == NO_ENTRY {
      assert s.tables[d][i := NO_ENTRY] == s.tables[d];
      assert u.tables == s.tables;
    } else {
      assert u.tables[d][i] != s.tables[d][i];
    }
  }

  /** Every used frame is mapped somewhere. */
  ghost predicate NoLeak(s: State)
  {
    forall f :: 0 <= f < |s.frames| && s.frames[f] ==> MappedSomewhere(s, f)
  }

  ghost predicate MappedSomewhere(s: State, f: nat)
  {
    exists d: nat, i: nat :: UserAt(s, d, i) && FrameAt(s, d, i) == f
  }

  /** Mapping over a user page loses the frame it had, and only that does. */
  lemma TakeLeaks(s: State, d: nat, i: nat, f: nat)
    requires Sound(s) && NoLeak(s) && d <= DIRECTORIES && i < ENTRIES && FirstFree(s.frames, f)
    ensures NoLeak(Take(s, d, i, f)) <==> !UserAt(s, d, i)
  {
    var t := Take(s, d, i, f);
    TakeEntries(s, d, i, f);
    if UserAt(s, d, i) {
      var g := FrameAt(s, d, i);
      forall c: nat, j: nat | UserAt(t, c, j)
        ensures FrameAt(t, c, j) != g
      {
        if !(c == d && j == i) { assert UserAt(s, c, j) && FrameAt(s, c, j) == FrameAt(t, c, j); }
      }
      assert t.frames[g] && !MappedSomewhere(t, g);
    } else {
      forall g | 0 <= g < FRAMES && t.frames[g]
        ensures MappedSomewhere(t, g)
      {
        if g == f {
          assert UserAt(t, d, i) && FrameAt(t, d, i) == g;
        } else {
          assert MappedSomewhere(s, g);
          var c: nat, j: nat :| UserAt(s, c, j) && FrameAt(s, c, j) == g;
          assert UserAt(t, c, j) && FrameAt(t, c, j) == g;
        }
      }
    }
  }

  /** Unmapping loses no frame. */
  lemma GiveKeepsTrack(s: State, d: nat, i: nat)
    requires Sound(s) && NoLeak(s) && UserAt(s, d, i)
    ensures NoLeak(Give(s, d, i))
  {
    var t := Give(s, d, i);
    forall g | 0 <= g < FRAMES && t.frames[g]
      ensures MappedSomewhere(t, g)
    {
      assert MappedSomewhere(s, g);
      var c: nat, j: nat :| UserAt(s, c, j) && FrameAt(s, c, j) == g;
      assert UserAt(t, c, j) && FrameAt(t, c, j) == g;
    }
  }

  /** Clearing a directory loses frames unless its user pages were unmapped before. */
  lemma SetTableLeaks(s: State, d: nat, live: bool)
    requires Sound(s) && NoLeak(s) && d < DIRECTORIES
    ensures NoLeak(SetTable(s, d, live)) <==> forall i: nat :: !UserAt(s, d, i)
  {
    var t := SetTable(s, d, live);
    SetTableSound(s, d, live);
    if i: nat :| UserAt(s, d, i) {
      var g := FrameAt(s, d, i);
      forall c: nat, j: nat | UserAt(t, c, j)
        ensures FrameAt(t, c, j) != g
      {
        assert c != d && UserAt(s, c, j) && FrameAt(s, c, j) == FrameAt(t, c, j);
      }
      assert t.frames[g] && !MappedSomewhere(t, g);
    } else {
      forall g | 0 <= g < FRAMES && t.frames[g]
        ensures MappedSomewhere(t, g)
      {
        assert MappedSomewhere(s, g);
        var c: nat, j: nat :| UserAt(s, c, j) && FrameAt(s, c, j) == g;
        assert UserAt(t, c, j) && FrameAt(t, c, j) == g;
      }
    }
  }

  function PageOf(va: nat): (i: nat)
    ensures i < ENTRIES
    ensures va < 0x1_0000_0000 ==> 4194304 * i <= va < 4194304 * i + 4194304
  {
    va / PAGE_FRAME_SIZE % ENTRIES
  }

  /** The static data of the kernel: no frame used, the kernel mapped at 0 and at its own base. */
  ghost function PowerOn(): (s: State)
    ensures Shape(s)
  {
    var empty := seq(ENTRIES, _ => NO_ENTRY);
    State(seq(FRAMES, _ => false), FRAMES, seq(DIRECTORIES, _ => false),
          seq(DIRECTORIES + 1, d =>
            if d == KERNEL_DIRECTORY then empty[0 := KERNEL_ENTRY][KERNEL_PAGE := KERNEL_ENTRY] else empty))
  }

  lemma {:induction false} AllUnused(frames: seq<bool>)
    requires forall f :: 0 <= f < |frames| ==> !frames[f]
    ensures Unused(frames) == |frames|
  {
    if frames != [] { AllUnused(frames[..|frames| - 1]); }
  }

  lemma {:induction false} NoneUnused(frames: seq<bool>)
    ensures Unused(frames) == 0 <==> forall f :: 0 <= f < |frames| ==> frames[f]
  {
    if frames != [] {
      var n := |frames| - 1;
      NoneUnused(frames[..n]);
      assert forall f :: 0 <= f < n ==> frames[..n][f] == frames[f];
    }
  }

  lemma PowerOnSound()
    ensures Sound(PowerOn()) && NoLeak(PowerOn())
  {
    AllUnused(PowerOn().frames);
  }

  /** The kernel is mapped at its own base in this directory, from the first frame, and not for user code. */
  ghost predicate KernelAt(s: State, d: nat)
  {
    d < |s.tables| && |s.tables[d]| == 1024 &&
    var e := s.tables[d][768];
    e.flags.present && e.flags.write && e.flags.large && !e.flags.user && e.lower == 0 && e.higher == 0
  }

  class PageManager {
    const frames: array<bool>
    var free: int
    const used: array<bool>
    const tables: array<seq<Entry>>

    ghost function View(): (s: State)
      reads this, frames, used, tables
    {
      State(frames[..], free, used[..], tables[..])
    }

    /** Frame map and directory map are different arrays. */
    ghost predicate Valid()
      reads this, frames, used, tables
    {
      frames != used && Sound(View())
    }

    constructor ()
      ensures Valid() && View() == PowerOn() && fresh(frames) && fresh(used) && fresh(tables)
      ensures free == frames.Length == used.Length == 32 && tables.Length == 33 && KernelAt(View(), 32)
    {
      var empty := seq(ENTRIES, _ => NO_ENTRY);
      frames := new bool[FRAMES](_ => false);
      free := FRAMES;
      used := new bool[DIRECTORIES](_ => false);
      tables := new seq<Entry>[DIRECTORIES + 1](d =>
        if d == KERNEL_DIRECTORY then empty[0 := KERNEL_ENTRY][KERNEL_PAGE := KERNEL_ENTRY] else empty);
      new;
      PowerOnSound();
      assert frames[..] == PowerOn().frames && used[..] == PowerOn().used && tables[..] == PowerOn().tables;
    }

    /** update_page_directory_entry: flags and address bits change, the other bits stay. */
    method UpdateEntry(d: nat, physical: nat, va: nat, flags: Flags)
      requires d < tables.Length && |tables[d]| == ENTRIES
      modifies tables
      ensures tables[..] == old(tables[..])[d := old(tables[d])[PageOf(va) :=
        old(tables[d][PageOf(va)]).(flags := flags, lower := PageOf(physical))]]
    {
      var i := va / PAGE_FRAME_SIZE % 0x400;
      tables[d] := tables[d][i := tables[d][i].(flags := flags)];
      tables[d] := tables[d][i := tables[d][i].(lower := physical / PAGE_FRAME_SIZE % 0x400)];
      assert tables[d] == old(tables[d])[i := old(tables[d][i]).(flags := flags, lower := PageOf(physical))];
    }

    /** paging_allocate_user_page_frame: false exactly when no frame is left. */
    method AllocateFrame(d: nat, va: nat) returns (ok: bool, ghost f: nat)
      requires Valid() && d <= DIRECTORIES
      modifies this`free, frames, tables
      ensures Valid()
      ensures ok <==> old(free) > 0
      ensures !ok ==> View() == old(View())
      ensures ok ==> FirstFree(old(frames[..]), f) && View() == Take(old(View()), d, PageOf(va), f)
      ensures ok && va < 0x1_0000_0000 ==>
        var e := View().tables[d][va / 4194304];
        e.flags.present && e.flags.write && e.flags.user && e.flags.large && e.lower == f && frames[f]
    {
      var index := -1;
      NoneUnused(frames[..]);
      for i := 0 to FRAMES
        invariant index == -1 && View() == old(View()) && forall j :: 0 <= j < i ==> frames[j]
      {
        if !frames[i] {
          frames[i] := true;
          index := i;
          free := free - 1;
          break;
        }
      }
      f := 0;
      if index == -1 {
        return false, f;
      }
      f := index;
      TakeSound(old(View()), d, PageOf(va), f);
      assert PageOf(index * PAGE_FRAME_SIZE) == index;
      UpdateEntry(d, index * PAGE_FRAME_SIZE, va, Flags(true, true, true, false, false, false, false, true));
      ok := true;
      assert View() == Take(old(View()), d, PageOf(va), f);
    }

    /** paging_free_user_page_frame: unmaps exactly the user mappings. */
    method FreeFrame(d: nat, va: nat) returns (ok: bool)
      requires Valid() && d <= DIRECTORIES && va < 0x1_0000_0000
      modifies this`free, frames, tables
      ensures Valid()
      ensures ok <==> UserAt(old(View()), d, PageOf(va))
      ensures View() == if ok then Give(old(View()), d, PageOf(va)) else old(View())
    {
      var page := va / PAGE_FRAME_SIZE;
      assert page == PageOf(va);
      var entry := tables[d][page];
      if !entry.flags.present || !entry.flags.user {
        return false;
      }
      var index := entry.lower + entry.higher * 1024;
      assert UserAt(View(), d, page) && FrameAt(View(), d, page) == index;
      if index >= FRAMES {
        return false;
      }
      GiveSound(View(), d, page);
      frames[index] := false;
      free := free + 1;
      tables[d] := tables[d][page := NO_ENTRY];
      ok := true;
      assert View() == Give(old(View()), d, page);
    }

    /**
      paging_create_new_page_directory: the first unused directory, cleared, with the kernel mapped; -1 when all are in
      use.
     */
    method CreateDirectory() returns (d: int)
      requires Valid()
      modifies used, tables
      ensures Valid()
      ensures d == -1 <==> forall e :: 0 <= e < DIRECTORIES ==> old(used[e])
      ensures d == -1 ==> View() == old(View())
      ensures d != -1 ==> 0 <= d < DIRECTORIES && !old(used[d]) && forall e :: 0 <= e < d ==> old(used[e])
      ensures d != -1 ==> View() == SetTable(old(View()), d, true)
      ensures d != -1 ==> KernelAt(View(), d) && forall i :: 0 <= i < 1024 && i != 768 ==>
        !View().tables[d][i].flags.present
    {
      for i := 0 to DIRECTORIES
        invariant View() == old(View()) && forall e :: 0 <= e < i ==> used[e]
      {
        if !used[i] {
          SetTableSound(View(), i, true);
          used[i] := true;
          tables[i] := seq(ENTRIES, _ => NO_ENTRY);
          tables[i] := tables[i][0x300 := Entry(NO_FLAGS.(present := true, write := true, large := true), 0, 0, 0)];
          assert tables[..] == SetTable(old(View()), i, true).tables;
          return i;
        }
      }
      return -1;
    }

    /** paging_free_page_directory: only directories that are handed out can be given back. */
    method FreeDirectory(d: nat) returns (ok: bool)
      requires Valid() && d <= DIRECTORIES
      modifies used, tables
      ensures Valid()
      ensures ok <==> d != KERNEL_DIRECTORY
      ensures View() == if ok then SetTable(old(View()), d, false) else old(View())
    {
      for i := 0 to DIRECTORIES
        invariant View() == old(View()) && i <= d
      {
        if i == d {
          SetTableSound(View(), i, false);
          used[i] := false;
          tables[i] := seq(ENTRIES, _ => NO_ENTRY);
          assert tables[..] == SetTable(old(View()), i, false).tables;
          return true;
        }
      }
      return false;
    }
  }

  /** What can happen to the frames and directories. */
  datatype Event = Allocate(d: nat, va: nat) | Free(d: nat, va: nat) | Create | Release(d: nat)

  ghost predicate Possible(e: Event)
  {
    match e
    case Allocate(d, _) => d <= DIRECTORIES
    case Free(d, _) => d <= DIRECTORIES
    case Create => true
    case Release(d) => d < DIRECTORIES
  }

  /** The states one event may lead to. */
  ghost predicate Next(s: State, e: Event, t: State)
  {
    Shape(s) && Possible(e) &&
    match e
    case Allocate(d, va) =>
      (exists f: nat :: FirstFree(s.frames, f) && f < FRAMES && t == Take(s, d, PageOf(va), f)) ||
        (t == s && Unused(s.frames) == 0)
    case Free(d, va) =>
      if UserAt(s, d, PageOf(va)) && FrameAt(s, d, PageOf(va)) < FRAMES then t == Give(s, d, PageOf(va)) else t == s
    case Create =>
      (exists d :: 0 <= d < DIRECTORIES && !s.used[d] && t == SetTable(s, d, true)) ||
        (t == s && forall d :: 0 <= d < DIRECTORIES ==> s.used[d])
    case Release(d) => t == SetTable(s, d, false)
  }

  /** A run from kernel start, whose first event maps the first user page of the kernel directory. */
  ghost predicate IsRun(states: seq<State>, events: seq<Event>)
  {
    && |states| == |events| + 1 && states[0] == Take(PowerOn(), KERNEL_DIRECTORY, 0, 0)
    && forall i :: 0 <= i < |events| ==> Next(states[i], events[i], states[i + 1])
  }

  lemma NextSound(s: State, e: Event, t: State)
    requires Sound(s) && Next(s, e, t)
    ensures Sound(t)
  {
    hide Sound, Take, Give, SetTable;
    match e {
      case Allocate(d, va) =>
        if f: nat :| FirstFree(s.frames, f) && f < FRAMES && t == Take(s, d, PageOf(va), f) {
          TakeSound(s, d, PageOf(va), f);
        }
      case Free(d, va) =>
        if UserAt(s, d, PageOf(va)) && FrameAt(s, d, PageOf(va)) < FRAMES {
          GiveSound(s, d, PageOf(va));
        }
      case Create =>
        if d :| 0 <= d < DIRECTORIES && !s.used[d] && t == SetTable(s, d, true) {
          SetTableSound(s, d, true);
        }
      case Release(d) => SetTableSound(s, d, false);
    }
  }

  /** The invariant holds in every state of every run. */
  lemma {:induction false} RunSound(states: seq<State>, events: seq<Event>, i: nat)
    requires IsRun(states, events) && i < |states|
    ensures Sound(states[i])
  {
    if i == 0 {
      PowerOnSound();
      TakeSound(PowerOn(), KERNEL_DIRECTORY, 0, 0);
    } else {
      hide Sound;
      RunSound(states, events, i - 1);
      NextSound(states[i - 1], events[i - 1], states[i]);
    }
  }

  /** The state runs start from. */
  ghost function Started(): (s: State)
    ensures Shape(s)
  {
    Take(PowerOn(), KERNEL_DIRECTORY, 0, 0)
  }

  lemma StartedWell()
    ensures Shape(Started()) && Sound(Started()) && NoLeak(Started()) && UserAt(Started(), KERNEL_DIRECTORY, 0)
    ensures FirstFree(Started().frames, 1) && forall d :: 0 <= d < DIRECTORIES ==> !Started().used[d]
    ensures forall d: nat, i: nat :: d < DIRECTORIES ==> !UserAt(Started(), d, i)
  {
    PowerOnSound();
    TakeSound(PowerOn(), KERNEL_DIRECTORY, 0, 0);
    TakeLeaks(PowerOn(), KERNEL_DIRECTORY, 0, 0);
    TakeEntries(PowerOn(), KERNEL_DIRECTORY, 0, 0);
  }

  /** A run that loses a frame: the page mapped at start-up is mapped a second time. */
  lemma RemapLeaks()
    ensures var s, t := Started(), Take(Started(), KERNEL_DIRECTORY, 0, 1);
      IsRun([s, t], [Allocate(KERNEL_DIRECTORY, 0)]) && NoLeak(s) && !NoLeak(t)
  {
    hide Sound, NoLeak, Take, Started;
    StartedWell();
    var s, t := Started(), Take(Started(), KERNEL_DIRECTORY, 0, 1);
    TakeLeaks(s, KERNEL_DIRECTORY, 0, 1);
    assert PageOf(0) == 0;
    AllocateNext(s, KERNEL_DIRECTORY, 0, 1);
    StartedIs();
  }

  lemma StartedIs()
    ensures Started() == Take(PowerOn(), KERNEL_DIRECTORY, 0, 0)
  {
  }

  /** Another: a directory is created, a page mapped in it, and the directory given back. */
  lemma ReleaseLeaks()
    ensures var s0 := Started();
      var s1 := SetTable(s0, 0, true);
      var s2 := Take(s1, 0, 0, 1);
      IsRun([s0, s1, s2, SetTable(s2, 0, false)], [Create, Allocate(0, 0), Release(0)]) && NoLeak(s2) &&
        !NoLeak(SetTable(s2, 0, false))
  {
    hide Sound, NoLeak, Take, Started, SetTable;
    StartedWell();
    StartedIs();
    var s0 := Started();
    var s1 := SetTable(s0, 0, true);
    var s2 := Take(s1, 0, 0, 1);
    var s3 := SetTable(s2, 0, false);
    assert PageOf(0) == 0;
    SetTableSound(s0, 0, true);
    SetTableLeaks(s0, 0, true);
    SameFrames(s0, 0, true);
    TakeSound(s1, 0, 0, 1);
    TakeLeaks(s1, 0, 0, 1);
    TakeEntries(s1, 0, 0, 1);
    SetTableLeaks(s2, 0, false);
    CreateNext(s0, 0);
    AllocateNext(s1, 0, 0, 1);
    ReleaseNext(s2, 0);
  }

  lemma CreateNext(s: State, d: nat)
    requires Shape(s) && d < DIRECTORIES && !s.used[d]
    ensures Next(s, Create, SetTable(s, d, true))
  {
    hide SetTable;
    assert 0 <= d < DIRECTORIES && !s.used[d] && SetTable(s, d, true) == SetTable(s, d, true);
  }

  lemma AllocateNext(s: State, d: nat, va: nat, f: nat)
    requires Shape(s) && d <= DIRECTORIES && f < FRAMES && FirstFree(s.frames, f)
    ensures Next(s, Allocate(d, va), Take(s, d, PageOf(va), f))
  {
    hide Take, FirstFree, PageOf;
    assert FirstFree(s.frames, f) && f < FRAMES;
  }

  lemma ReleaseNext(s: State, d: nat)
    requires Shape(s) && d < DIRECTORIES
    ensures Next(s, Release(d), SetTable(s, d, false))
  {
    hide SetTable;
  }

  lemma SameFrames(s: State, d: nat, live: bool)
    requires Shape(s) && d < DIRECTORIES
    ensures SetTable(s, d, live).frames == s.frames
  {
  }
}
