/** The scheduler and the page manager together: no run lets two processes reach the same frame. */
module Isolation {
  import opened Processes
  import opened Scheduler
  import opened Kernel

  /** The process table and the page manager at one moment. */
  datatype System = System(table: State, pages: Paging.State)

  /** A timer interrupt, or the system call that starts a program which can be read. */
  datatype Happening = Interrupt(frame: Frame) | Exec

  ghost predicate Follows(x: System, e: Happening, y: System)
  {
    && x.table.Table() && Paging.Shape(x.pages)
    && match e
       case Interrupt(f) => Current(x.table) < PROCESS_COUNT_MAX && y == System(TickStep(x.table, f), x.pages)
       case Exec =>
         x.table.active < PROCESS_COUNT_MAX &&
         var c := CreateMemory(x.pages, 0, 0);
         c.code == 0 && y == System(SpawnStep(x.table, x.table.active, 0, c.directory), c.pages)
  }

  /** Kernel set-up: one page mapped for the kernel, and the shell started. */
  ghost function SetUp(): (x: System)
  {
    var c := CreateMemory(Paging.Started(), 0, 0);
    System(BootState(0, c.directory), c.pages)
  }

  ghost predicate IsSystemRun(xs: seq<System>, es: seq<Happening>)
  {
    |xs| == |es| + 1 && xs[0] == SetUp() && forall i :: 0 <= i < |es| ==> Follows(xs[i], es[i], xs[i + 1])
  }

  /**
    What every moment of a run has: a good process table, sound page tables, and a directory of its own for every
    process.
   */
  ghost predicate Separated(x: System)
  {
    x.table.Table() && Paging.Sound(x.pages) && Isolated(x.table, x.pages) && Ready(x.table, x.pages) &&
    exists k :: Good(x.table, k)
  }

  lemma SetUpSeparated()
    ensures Separated(SetUp())
  {
    Paging.StartedWell();
    var s := Paging.Started();
    TwoFree();
    EnoughMemory(s, 0);
    CreateMemorySound(s, 0, 0);
    IsolatedBoot(s, 0);
    ReadyBoot(s);
    GoodBoot(0, CreateMemory(s, 0, 0).directory);
  }

  lemma TwoFree()
    ensures Paging.Started().free >= 2 && !Paging.Started().used[0]
  {
  }

  /** Right after start-up, a program that cannot be read costs a directory and two frames, which no process has. */
  lemma UnreadableLoses(readCode: int)
    requires readCode != 0
    ensures var s, c := Paging.Started(), CreateMemory(Paging.Started(), 0, readCode);
      c.code == FAIL_FS_READ_FAILURE && c.pages.free == s.free - 2 && !s.used[0] && c.pages.used[0]
  {
    Paging.StartedWell();
    TwoFree();
    EnoughMemory(Paging.Started(), 0);
    FailureLosesMemory(Paging.Started(), 0, readCode);
  }

  lemma FollowsSeparated(x: System, e: Happening, y: System)
    requires Separated(x) && Follows(x, e, y)
    ensures Separated(y)
  {
    hide Good, Isolated, Ready, CreateMemory, Current;
    var k :| Good(x.table, k);
    match e {
      case Interrupt(f) =>
        GoodTick(x.table, k, f);
        IsolatedTick(x.table, k, f, x.pages);
        ReadyTick(x.table, k, f, x.pages);
      case Exec =>
        var c := CreateMemory(x.pages, 0, 0);
        CreateMemorySound(x.pages, 0, 0);
        GoodSpawn(x.table, k, 0, c.directory);
        IsolatedSpawn(x.table, k, x.pages, 0);
        ReadySpawn(x.table, k, x.pages);
    }
  }

  lemma {:induction false} RunSeparated(xs: seq<System>, es: seq<Happening>, n: nat)
    requires IsSystemRun(xs, es) && n < |xs|
    ensures Separated(xs[n])
  {
    hide Separated, Follows;
    if n == 0 {
      SetUpSeparated();
    } else {
      RunSeparated(xs, es, n - 1);
      FollowsSeparated(xs[n - 1], es[n - 1], xs[n]);
    }
  }

  /** In every run, at every moment, two different processes have no frame in common. */
  lemma NoSharedFrame(xs: seq<System>, es: seq<Happening>, n: nat, i: nat, j: nat, a: nat, b: nat)
    requires IsSystemRun(xs, es) && n < |xs|
    ensures var t, p := xs[n].table, xs[n].pages;
      t.Table() && Paging.Shape(p) &&
      (i < t.active <= PROCESS_COUNT_MAX && j < t.active && i != j &&
       Paging.UserAt(p, t.pcbs[i].context.directory, a) && Paging.UserAt(p, t.pcbs[j].context.directory, b) ==>
       Paging.FrameAt(p, t.pcbs[i].context.directory, a) != Paging.FrameAt(p, t.pcbs[j].context.directory, b))
  {
    RunSeparated(xs, es, n);
    var t, p := xs[n].table, xs[n].pages;
    if i < t.active <= PROCESS_COUNT_MAX && j < t.active && i != j &&
       Paging.UserAt(p, t.pcbs[i].context.directory, a) && Paging.UserAt(p, t.pcbs[j].context.directory, b) {
      SeparateFrames(t, p, i, j, a, b);
    }
  }

  /**
    In every run, until a process first runs, its context has interrupts enabled and privilege level 3 in its selectors,
    and the pages of its entry and of its stack are its own.
   */
  lemma ReadyToStart(xs: seq<System>, es: seq<Happening>, n: nat, i: nat)
    requires IsSystemRun(xs, es) && n < |xs|
    ensures var t, p := xs[n].table, xs[n].pages;
      t.Table() && Paging.Shape(p) && t.active <= PROCESS_COUNT_MAX &&
      (i < t.active && t.pcbs[i].state == NEW ==>
        var c := t.pcbs[i].context;
        && c.eflags / 512 % 2 == 1 && c.cpu.ds % 4 == c.cpu.es % 4 == c.cpu.fs % 4 == c.cpu.gs % 4 == 3
        && Paging.UserAt(p, c.directory, c.eip / 4194304) && Paging.UserAt(p, c.directory, c.cpu.esp / 4194304))
  {
    RunSeparated(xs, es, n);
    var t := xs[n].table;
    if i < t.active && t.pcbs[i].state == NEW {
      assert t.pcbs[i].context.cpu.esp / 4194304 == 767;
    }
  }

  /**
    At every moment every process can write its program's page and its stack, and sees the kernel but cannot use it.
   */
  lemma OwnPages(xs: seq<System>, es: seq<Happening>, n: nat, i: nat)
    requires IsSystemRun(xs, es) && n < |xs|
    ensures var t, p := xs[n].table, xs[n].pages;
      t.Table() && Paging.Shape(p) && t.active <= PROCESS_COUNT_MAX &&
      (i < t.active ==>
        var d := t.pcbs[i].context.directory;
        && Paging.UserAt(p, d, 0) && Paging.UserAt(p, d, 0xBFFF_FFFC / 0x40_0000)
        && p.tables[d][0].flags.write && p.tables[d][0xBFFF_FFFC / 0x40_0000].flags.write
        && p.tables[d][KERNEL_VIRTUAL_ADDRESS_BASE / 0x40_0000].flags.present &&
           !p.tables[d][KERNEL_VIRTUAL_ADDRESS_BASE / 0x40_0000].flags.user)
  {
    RunSeparated(xs, es, n);
    assert 0xBFFF_FFFC / 0x40_0000 == 767 && KERNEL_VIRTUAL_ADDRESS_BASE / 0x40_0000 == 768;
  }
}
