/** The process table and its ring, updated in place. */
module Kernel {
  import opened Processes
  import opened Scheduler

  import Paging

  const KERNEL_VIRTUAL_ADDRESS_BASE: nat := 0xC000_0000
  const STACK: nat := 0xBFFF_FFFC
  const FAIL_NOT_ENOUGH_MEMORY := 3
  const FAIL_FS_READ_FAILURE := 4

  /** How creating a process ends: its code, its page directory, and what it leaves of the frames and directories. */
  datatype Creation = Creation(code: int, directory: nat, pages: Paging.State)

  /**
    In a fresh directory, one page for the program and one for the stack; only the first is given back on failure, and
    only if the second failed.
   */
  ghost function LoadedIn(s: Paging.State, d: nat, entry: nat, readCode: int): (c: Creation)
    requires Paging.Shape(s) && d < Paging.DIRECTORIES
    ensures Paging.Shape(c.pages) && c.directory == d && c.pages.used == s.used
  {
    var f := Paging.FirstClear(s.frames);
    if f == Paging.FRAMES then Creation(FAIL_NOT_ENOUGH_MEMORY, d, s)
    else
      var t := Paging.Take(s, d, Paging.PageOf(entry), f);
      var g := Paging.FirstClear(t.frames);
      Paging.TakeEntries(s, d, Paging.PageOf(entry), f);
      if g == Paging.FRAMES then Creation(FAIL_NOT_ENOUGH_MEMORY, d, Paging.Give(t, d, Paging.PageOf(entry)))
      else Creation(if readCode != 0 then FAIL_FS_READ_FAILURE else 0, d, Paging.Take(t, d, Paging.PageOf(STACK), g))
  }

  /** The first unused directory, cleared, and the program loaded in it. */
  ghost function CreateMemory(s: Paging.State, entry: nat, readCode: int): (c: Creation)
    requires Paging.Shape(s)
    ensures Paging.Shape(c.pages)
  {
    var d := Paging.FirstClear(s.used);
    if d == Paging.DIRECTORIES then Creation(FAIL_NOT_ENOUGH_MEMORY, d, s)
    else LoadedIn(Paging.SetTable(s, d, true), d, entry, readCode)
  }

  /** Whatever the outcome, the frames stay counted, backed and exclusive. */
  lemma CreateMemorySound(s: Paging.State, entry: nat, readCode: int)
    requires Paging.Sound(s)
    ensures Paging.Sound(CreateMemory(s, entry, readCode).pages)
  {
    var d := Paging.FirstClear(s.used);
    if d < Paging.DIRECTORIES {
      Paging.SetTableSound(s, d, true);
      var s1 := Paging.SetTable(s, d, true);
      var f := Paging.FirstClear(s1.frames);
      if f < Paging.FRAMES {
        Paging.TakeSound(s1, d, Paging.PageOf(entry), f);
        Paging.TakeEntries(s1, d, Paging.PageOf(entry), f);
        var s2 := Paging.Take(s1, d, Paging.PageOf(entry), f);
        var g := Paging.FirstClear(s2.frames);
        hide Paging.Sound;
        if g < Paging.FRAMES {
          Paging.TakeSound(s2, d, Paging.PageOf(STACK), g);
        } else {
          Paging.GiveSound(s2, d, Paging.PageOf(entry));
        }
      }
    }
  }

  /** The new directory holds the kernel, the program's page and the stack's; every other directory is as it was. */
  lemma CreateMemoryMaps(s: Paging.State, entry: nat, readCode: int)
    requires Paging.Shape(s) && entry < KERNEL_VIRTUAL_ADDRESS_BASE
    ensures var c := CreateMemory(s, entry, readCode);
      && (forall d :: 0 <= d < Paging.DIRECTORIES && d != c.directory ==> c.pages.tables[d] == s.tables[d])
      && (c.code == 0 ==>
           c.directory < Paging.DIRECTORIES && Paging.KernelAt(c.pages, c.directory) &&
           Paging.UserAt(c.pages, c.directory, entry / 4194304) && Paging.UserAt(c.pages, c.directory, 767))
  {
    hide Paging.PageOf;
    assert Paging.PageOf(STACK) == 767;
    assert Paging.PageOf(entry) == entry / 4194304 < 768;
  }

  /**
    The directory was not in use, and from then on it is, also when the creation failed: nothing ever gives it back.  Of
    the failures exactly that of a program that could not be read loses frames as well, two of them.
   */
  lemma FailureLosesMemory(s: Paging.State, entry: nat, readCode: int)
    requires Paging.Shape(s)
    ensures var c := CreateMemory(s, entry, readCode);
      && (c.code == 0 ==> c.directory < Paging.DIRECTORIES)
      && (c.directory < Paging.DIRECTORIES ==> !s.used[c.directory] && c.pages.used == s.used[c.directory := true])
      && (c.directory >= Paging.DIRECTORIES ==> c.pages == s)
      && (c.code == FAIL_FS_READ_FAILURE ==> c.pages.free == s.free - 2)
      && (c.code == FAIL_NOT_ENOUGH_MEMORY ==> c.pages.frames == s.frames && c.pages.free == s.free)
      && (c.code != 0 ==> (c.pages.free == s.free <==> c.code != FAIL_FS_READ_FAILURE))
      && (c.code == 0 || c.code == 3 || c.code == 4) && (c.code == 4 ==> readCode != 0) &&
           (c.code == 0 ==> readCode == 0)
  {
    hide Paging.PageOf;
  }

  class ProcessTable {
    const pcbs: array<Pcb>
    const used: array<bool>
    const ring: Ring
    var active: nat
    var latest: nat

    ghost predicate Valid()
      reads this, pcbs, used, ring, ring.items
    {
      && pcbs.Length == PROCESS_COUNT_MAX && used.Length == PROCESS_COUNT_MAX && ring.Valid()
      && forall i :: 0 <= i < |ring.Contents()| ==> ring.Contents()[i] < PROCESS_COUNT_MAX
    }

    /** The state the scheduler's laws speak about. */
    ghost function View(): (s: State)
      reads this, pcbs, used, ring, ring.items
      requires Valid()
      ensures s.Table()
    {
      State(pcbs[..], used[..], ring.Contents(), active, latest)
    }

    /** The zeroed static data of the kernel. */
    constructor ()
      ensures Valid() && fresh(pcbs) && fresh(used) && fresh(ring) && fresh(ring.items) && View() == PowerOn()
    {
      pcbs := new Pcb[PROCESS_COUNT_MAX](_ => ZERO_PCB);
      used := new bool[PROCESS_COUNT_MAX](_ => false);
      ring := new Ring();
      active, latest := 0, 0;
      new;
      assert pcbs[..] == PowerOn().pcbs && used[..] == PowerOn().used;
    }

    /** process_list_get_inactive_index, and process_generate_new_pid: the first unused slot; -1 if there is none. */
    method InactiveIndex() returns (slot: int)
      requires Valid()
      ensures slot == -1 <==> forall i :: 0 <= i < PROCESS_COUNT_MAX ==> used[i]
      ensures slot != -1 ==> 0 <= slot < PROCESS_COUNT_MAX && !used[slot] && forall i :: 0 <= i < slot ==> used[i]
    {
      for i := 0 to PROCESS_COUNT_MAX
        invariant forall j :: 0 <= j < i ==> used[j]
      {
        if !used[i] {
          return i;
        }
      }
      return -1;
    }

    /** process_get_current_running_pcb_pointer: 16 where the source has NULL. */
    method CurrentRunning() returns (slot: nat)
      requires Valid()
      ensures slot == Current(View())
    {
      for i := 0 to PROCESS_COUNT_MAX
        invariant forall j: nat :: j < i ==> !Live(View(), j)
      {
        if used[i] && (pcbs[i].state == RUNNING || pcbs[i].state == NEW) {
          CurrentIs(View(), i);
          return i;
        }
      }
      return PROCESS_COUNT_MAX;
    }

    /** The tables of the process manager are none of the page manager's arrays. */
    ghost predicate Apart(pages: Paging.PageManager)
    {
      used != pages.frames && used != pages.used
    }

    /**
      process_create_user_process, once its first checks passed: a directory, two pages, then the program is read in.  A
      failure clears the slot again but keeps the directory, and if reading failed both pages.
     */
    method CreateUserProcess(pages: Paging.PageManager, entry: nat, readCode: int) returns (code: int, ghost slot: nat)
      requires Valid() && pages.Valid() && Apart(pages) && active < PROCESS_COUNT_MAX &&
        entry < KERNEL_VIRTUAL_ADDRESS_BASE
      requires pages.free >= 1 && exists i :: 0 <= i < PROCESS_COUNT_MAX && !used[i]
      modifies pcbs, used, this, pages`free, pages.frames, pages.used, pages.tables
      ensures Valid() && pages.Valid() && slot < PROCESS_COUNT_MAX && !old(used[slot])
      ensures forall i :: 0 <= i < slot ==> old(used[i])
      ensures var c := CreateMemory(old(pages.View()), entry, readCode);
        && code == c.code && pages.View() == c.pages
        && View() == if code == 0 then CreateStep(old(View()), slot, entry, c.directory)
                     else old(View()).(pcbs := old(View()).pcbs[slot := ZERO_PCB])
    {
      hide CreateMemory, Paging.Sound;
      var index := InactiveIndex();
      slot := index;
      var pid := InactiveIndex();
      pcbs[index] := ZERO_PCB.(pid := pid, state := NEW);
      var directory;
      code, directory := LoadProcess(pages, entry, readCode);
      if code != 0 {
        pcbs[index] := ZERO_PCB;
        return;
      }
      var context := ZERO_PCB.context.(directory := directory);
      var cpu := context.cpu.(ds := 0x23, es := 0x23, fs := 0x23, gs := 0x23, ebp := 0xBFFFFFFC, esp := 0xBFFFFFFC);
      context := context.(cpu := cpu);
      context := context.(eip := entry, eflags := 0x2 + 0x200);
      assert context == StartContext(entry, directory);
      hide StartContext;
      pcbs[index] := Pcb(pid, NEW, context);
      used[index] := true;
      active := active + 1;
      latest := pid;
      assert pcbs[..] == old(pcbs[..])[slot := Pcb(slot, NEW, context)] && used[..] == old(used[..])[slot := true];
    }

    /** scheduler_init: queue the first new slot. */
    method SchedulerInit() returns (ghost slot: nat)
      requires Valid() && exists i :: 0 <= i < PROCESS_COUNT_MAX && pcbs[i].state == NEW
      requires |ring.Contents()| < PROCESS_QUEUE_SIZE - 1
      modifies ring`tail, ring.items
      ensures Valid() && slot < PROCESS_COUNT_MAX && pcbs[slot].state == NEW
      ensures forall i :: 0 <= i < slot ==> pcbs[i].state != NEW
      ensures View() == old(View()).(queue := old(View()).queue + [slot])
    {
      var first := PROCESS_COUNT_MAX;
      for i := 0 to PROCESS_COUNT_MAX
        invariant first == PROCESS_COUNT_MAX && forall j :: 0 <= j < i ==> pcbs[j].state != NEW
      {
        if pcbs[i].state == NEW {
          first := i;
          break;
        }
      }
      slot := first;
      var _ := ring.Enqueue(first);
    }

    /** kernel_setup: create the shell and start the scheduler, the shell being there to be read. */
    method Boot(pages: Paging.PageManager, entry: nat)
      requires Valid() && pages.Valid() && Apart(pages) && View() == PowerOn() && entry < KERNEL_VIRTUAL_ADDRESS_BASE
      requires pages.free >= 2 && exists d :: 0 <= d < Paging.DIRECTORIES && !pages.used[d]
      modifies this, pcbs, used, ring`tail, ring.items, pages`free, pages.frames, pages.used, pages.tables
      ensures Valid() && pages.Valid()
      ensures var c := CreateMemory(old(pages.View()), entry, 0);
        c.code == 0 && pages.View() == c.pages && View() == BootState(entry, c.directory)
      ensures Good(View(), 0) && Isolated(View(), pages.View())
      ensures entry == 0 ==> Ready(View(), pages.View())
    {
      hide PowerOn, CreateStep, BootState, SpawnStep, Good, Isolated, Ready, CreateMemory, Paging.Backed,
        Paging.Exclusive, Paging.Clean, Paging.Writable, StartContext, Starting;
      ghost var s := pages.View();
      ghost var d := CreateMemory(s, entry, 0).directory;
      FirstProcess(entry, d);
      EnoughMemory(s, entry);
      assert !View().used[0];
      ghost var created;
      var code;
      code, created := CreateUserProcess(pages, entry, 0);
      assert created == 0;
      assert View().pcbs[0].state == NEW;
      var queued := SchedulerInit();
      GoodBoot(entry, d);
      IsolatedBoot(s, entry);
      if entry == 0 { ReadyBoot(s); }
    }

    /** scheduler_save_context_to_current_running_pcb; what the scan finds is never terminated. */
    method SaveContext(context: Context)
      requires Valid() && |ring.Contents()| < PROCESS_QUEUE_SIZE - 1
      modifies pcbs, ring`tail, ring.items
      ensures Valid()
      ensures var s, c := old(View()), Current(old(View()));
        View() == if c == PROCESS_COUNT_MAX then s
                  else s.(pcbs := s.pcbs[c := s.pcbs[c].(context := context, state := READY)], queue := s.queue + [c])
    {
      var slot := CurrentRunning();
      if slot < PROCESS_COUNT_MAX {
        pcbs[slot] := pcbs[slot].(context := context);
        if pcbs[slot].state != TERMINATED {
          pcbs[slot] := pcbs[slot].(state := READY);
          var _ := ring.Enqueue(slot);
        }
      }
    }

    /** scheduler_switch_to_next_process: an empty ring falls back on the first slot with the latest pid. */
    method SwitchToNext() returns (slot: nat, context: Context)
      requires Valid()
      requires ring.Contents() != [] || exists i :: 0 <= i < PROCESS_COUNT_MAX && pcbs[i].pid == latest
      modifies pcbs, ring`head
      ensures Valid() && slot < PROCESS_COUNT_MAX
      ensures old(ring.Contents()) != [] ==> old(ring.Contents()) == [slot] + ring.Contents()
      ensures old(ring.Contents()) == [] ==>
        ring.Contents() == [] && old(pcbs[slot].pid) == latest &&
        forall i :: 0 <= i < slot ==> old(pcbs[i].pid) != latest
      ensures pcbs[..] == old(pcbs[..])[slot := old(pcbs[slot]).(state := RUNNING)]
      ensures context == pcbs[slot].context
    {
      var found;
      ghost var was := ring.Contents();
      found, slot := ring.Dequeue();
      ghost var rest := ring.Contents();
      if found { Shorter(was, slot, rest); }
      if !found {
        slot := PROCESS_COUNT_MAX;
        for i := 0 to PROCESS_COUNT_MAX
          invariant slot == PROCESS_COUNT_MAX && forall j :: 0 <= j < i ==> pcbs[j].pid != latest
        {
          if pcbs[i].pid == latest {
            slot := i;
            break;
          }
        }
      }
      pcbs[slot] := pcbs[slot].(state := RUNNING);
      assert ring.Contents() == rest;
      context := pcbs[slot].context;
    }

    /** The timer case of main_interrupt_handler; returns what process_context_switch is given. */
    method TimerInterrupt(frame: Frame, ghost k: nat) returns (slot: nat, context: Context)
      requires Valid() && Good(View(), k)
      modifies pcbs, ring`head, ring`tail, ring.items
      ensures Valid() && View() == TickStep(old(View()), frame)
      ensures slot < PROCESS_COUNT_MAX && slot == Current(View()) && context == View().pcbs[slot].context
      ensures Good(View(), Reached(k, slot))
    {
      hide Good, Current;
      ghost var s := View();
      Runs(s, k);
      GoodTick(s, k, frame);
      TickRotates(s, k, frame);
      var current := CurrentRunning();
      var captured := Context(frame.cpu, frame.eip, frame.eflags, pcbs[current].context.directory);
      if pcbs[current].state == NEW {
        captured := pcbs[current].context;
      }
      SaveContext(captured);
      ghost var saved := View();
      slot, context := SwitchToNext();
      assert saved.queue[0] == slot && s.queue[0] == slot;
    }

    /**
      System call 18: create a process and queue every slot that carries the latest pid, whether the creation succeeded
      or not.  Success keeps the invariant and the isolation of address spaces; failure always breaks the invariant.
     */
    method SpawnSyscall(pages: Paging.PageManager, readCode: int, ghost k: nat) returns (code: int)
      requires Valid() && pages.Valid() && Apart(pages) && Good(View(), k) && active < PROCESS_COUNT_MAX &&
        pages.free >= 1
      modifies this, pcbs, used, ring`tail, ring.items, pages`free, pages.frames, pages.used, pages.tables
      ensures Valid() && pages.Valid()
      ensures var c := CreateMemory(old(pages.View()), 0, readCode);
        && code == c.code && pages.View() == c.pages
        && View() == if code == 0 then SpawnStep(old(View()), old(active), 0, c.directory)
           else FailedStep(old(View()), old(active))
      ensures if code == 0 then Good(View(), k) else forall j :: !Good(View(), j)
      ensures old(Isolated(View(), pages.View())) ==> Isolated(View(), pages.View())
      ensures code == 0 && old(Isolated(View(), pages.View()) && Ready(View(), pages.View())) ==>
        Ready(View(), pages.View())
    {
      hide Good, Isolated, Ready, Carrying, CreateMemory, Paging.Clean, Paging.Backed, Paging.Exclusive;
      ghost var s, p := View(), pages.View();
      ghost var directory := CreateMemory(p, 0, readCode).directory;
      GoodSpawn(s, k, 0, directory);
      FailedQueues(s, k);
      GoodTable(s, k);
      SpawnLatest(s, k, directory);
      if Isolated(s, p) {
        IsolatedSpawn(s, k, p, readCode);
        FailureLosesMemory(p, 0, readCode);
        if Ready(s, p) && readCode == 0 && CreateMemory(p, 0, 0).code == 0 { ReadySpawn(s, k, p); }
      }
      ghost var slot;
      code, slot := CreateUserProcess(pages, 0, readCode);
      assert slot == s.active;
      QueueCarrying();
    }

    /** The loop of the system call over the process list. */
    method QueueCarrying()
      requires Valid() && |ring.Contents()| + |Carrying(pcbs[..], latest, 0)| < PROCESS_QUEUE_SIZE
      modifies ring`tail, ring.items
      ensures Valid() && View() == old(View()).(queue := old(View()).queue + Carrying(old(pcbs[..]), latest, 0))
    {
      hide Carrying;
      ghost var q, all := ring.Contents(), Carrying(pcbs[..], latest, 0);
      for i := 0 to PROCESS_COUNT_MAX
        invariant ring.Valid() && ring.Contents() + Carrying(pcbs[..], latest, i) == q + all
      {
        CarryingNext(pcbs[..], latest, i, ring.Contents());
        if pcbs[i].pid == latest {
          var _ := ring.Enqueue(i);
        }
      }
      CarryingEnd(pcbs[..], latest);
      assert ring.Contents() + [] == ring.Contents();
      InTable(q, all);
    }
  }

  lemma CarryingNext(pcbs: seq<Pcb>, pid: nat, i: nat, c: seq<nat>)
    requires i < |pcbs|
    ensures c + Carrying(pcbs, pid, i) == (if pcbs[i].pid == pid then c + [i] else c) + Carrying(pcbs, pid, i + 1)
  {
  }

  lemma CarryingEnd(pcbs: seq<Pcb>, pid: nat)
    ensures Carrying(pcbs, pid, |pcbs|) == []
  {
  }

  lemma InTable(q: seq<nat>, r: seq<nat>)
    requires forall i :: 0 <= i < |q| ==> q[i] < PROCESS_COUNT_MAX
    requires forall i :: 0 <= i < |r| ==> r[i] < PROCESS_COUNT_MAX
    ensures forall i :: 0 <= i < |q + r| ==> (q + r)[i] < PROCESS_COUNT_MAX
  {
  }

  /** The middle of process_create_user_process: a new directory, and the program in it. */
  method LoadProcess(pages: Paging.PageManager, entry: nat, readCode: int) returns (code: int, directory: nat)
    requires pages.Valid() && entry < KERNEL_VIRTUAL_ADDRESS_BASE
    modifies pages`free, pages.frames, pages.used, pages.tables
    ensures pages.Valid()
    ensures CreateMemory(old(pages.View()), entry, readCode) == Creation(code, directory, pages.View())
  {
    hide Paging.Clean, Paging.Backed, Paging.Exclusive, LoadedIn;
    ghost var s := pages.View();
    var d := pages.CreateDirectory();
    FirstIs(s.used, d);
    if d == -1 {
      return FAIL_NOT_ENOUGH_MEMORY, Paging.DIRECTORIES;
    }
    directory := d;
    code := LoadProgram(pages, d, entry, readCode);
  }

  /** Reading the program into its directory: two pages, then the file. */
  method LoadProgram(pages: Paging.PageManager, d: nat, entry: nat, readCode: int) returns (code: int)
    requires pages.Valid() && d < Paging.DIRECTORIES && entry < KERNEL_VIRTUAL_ADDRESS_BASE
    modifies pages`free, pages.frames, pages.tables
    ensures pages.Valid()
    ensures LoadedIn(old(pages.View()), d, entry, readCode) == Creation(code, d, pages.View())
  {
    hide Paging.PageOf;
    ghost var s := pages.View();
    var ok;
    ghost var f, g;
    ok, f := pages.AllocateFrame(d, entry);
    FirstFrame(s, f);
    if !ok {
      return FAIL_NOT_ENOUGH_MEMORY;
    }
    ghost var s2 := pages.View();
    Paging.TakeEntries(s, d, Paging.PageOf(entry), f);
    ok, g := pages.AllocateFrame(d, STACK);
    FirstFrame(s2, g);
    if !ok {
      var _ := pages.FreeFrame(d, entry);
      return FAIL_NOT_ENOUGH_MEMORY;
    }
    if readCode != 0 {
      return FAIL_FS_READ_FAILURE;
    }
    code := 0;
  }

  lemma FirstFrame(s: Paging.State, f: nat)
    requires Paging.Sound(s)
    ensures s.free > 0 <==> Paging.FirstClear(s.frames) < Paging.FRAMES
    ensures Paging.FirstFree(s.frames, f) ==> f == Paging.FirstClear(s.frames)
  {
    Paging.NoneUnused(s.frames);
  }

  lemma FirstIs(bits: seq<bool>, d: int)
    ensures d == -1 && (forall e :: 0 <= e < |bits| ==> bits[e]) ==> Paging.FirstClear(bits) == |bits|
    ensures 0 <= d < |bits| && !bits[d] && (forall e :: 0 <= e < d ==> bits[e]) ==> d == Paging.FirstClear(bits)
  {
  }

  lemma EnoughMemory(s: Paging.State, entry: nat)
    requires Paging.Sound(s) && s.free >= 2 && exists d :: 0 <= d < Paging.DIRECTORIES && !s.used[d]
    ensures CreateMemory(s, entry, 0).code == 0
  {
    var d := Paging.FirstClear(s.used);
    Paging.SetTableSound(s, d, true);
    var s1 := Paging.SetTable(s, d, true);
    var f := Paging.FirstClear(s1.frames);
    FirstFrame(s1, f);
    Paging.TakeSound(s1, d, Paging.PageOf(entry), f);
    FirstFrame(Paging.Take(s1, d, Paging.PageOf(entry), f), 0);
  }

  /** The tables before and after the first process is created. */
  lemma FirstProcess(entry: nat, d: nat)
    ensures !PowerOn().used[0] && PowerOn().active == 0
    ensures var s := CreateStep(PowerOn(), 0, entry, d);
      s.queue == [] && s.pcbs[0].state == NEW && s.(queue := s.queue + [0]) == BootState(entry, d)
  {
  }

  lemma GoodTable(s: State, k: nat)
    requires Good(s, k) && s.active < PROCESS_COUNT_MAX
    ensures |s.queue| == s.active && !s.used[s.active] && forall i :: 0 <= i < s.active ==> s.used[i]
    ensures s.latest == s.active - 1
  {
  }

  /** The latest pid belongs to the new process alone. */
  lemma SpawnLatest(s: State, k: nat, directory: nat)
    requires Good(s, k) && s.active < PROCESS_COUNT_MAX
    ensures Carrying(CreateStep(s, s.active, 0, directory).pcbs, s.active, 0) == [s.active]
  {
    CarryingOne(CreateStep(s, s.active, 0, directory).pcbs, s.active, s.active, 0);
  }

  /** Every process has its own page directory, and that is one in use. */
  ghost predicate Isolated(s: State, p: Paging.State)
    requires s.Table() && Paging.Shape(p)
  {
    && s.active <= PROCESS_COUNT_MAX
    && (forall i :: 0 <= i < s.active ==>
         s.pcbs[i].context.directory < Paging.DIRECTORIES && p.used[s.pcbs[i].context.directory])
    && (forall i, j :: 0 <= i < j < s.active ==> s.pcbs[i].context.directory != s.pcbs[j].context.directory)
  }

  lemma IsolatedBoot(p: Paging.State, entry: nat)
    requires Paging.Shape(p) && CreateMemory(p, entry, 0).code == 0
    ensures var c := CreateMemory(p, entry, 0); Isolated(BootState(entry, c.directory), c.pages)
  {
    FailureLosesMemory(p, entry, 0);
    hide CreateMemory;
  }

  /** A creation takes a directory no process has, and a failed one touches no process. */
  lemma IsolatedSpawn(s: State, k: nat, p: Paging.State, readCode: int)
    requires Good(s, k) && s.active < PROCESS_COUNT_MAX && Paging.Shape(p) && Isolated(s, p)
    ensures var c := CreateMemory(p, 0, readCode);
      Isolated(if c.code == 0 then SpawnStep(s, s.active, 0, c.directory) else FailedStep(s, s.active), c.pages)
  {
    FailureLosesMemory(p, 0, readCode);
    hide CreateMemory, Good, Carrying;
  }

  /** A tick moves no process to another directory. */
  lemma IsolatedTick(s: State, k: nat, f: Frame, p: Paging.State)
    requires Good(s, k) && Paging.Shape(p) && Isolated(s, p)
    ensures Isolated(TickStep(s, f), p)
  {
    hide Current, Good, Live, TickStep;
    Runs(s, k);
    TickSame(s, f);
  }

  /** Every process sees the kernel, its program and its stack; one that never ran has everything it needs to start. */
  ghost predicate Ready(s: State, p: Paging.State)
    requires s.Table() && Paging.Shape(p)
  {
    s.active <= PROCESS_COUNT_MAX &&
    forall i :: 0 <= i < s.active ==>
      && Paging.KernelAt(p, s.pcbs[i].context.directory) && Paging.UserAt(p, s.pcbs[i].context.directory, 0)
      && Paging.UserAt(p, s.pcbs[i].context.directory, 767)
      && (s.pcbs[i].state == NEW ==> Starting(s.pcbs[i].context) && s.pcbs[i].context.eip == 0)
  }

  lemma ReadyBoot(p: Paging.State)
    requires Paging.Shape(p) && CreateMemory(p, 0, 0).code == 0
    ensures var c := CreateMemory(p, 0, 0); Ready(BootState(0, c.directory), c.pages)
  {
    CreateMemoryMaps(p, 0, 0);
    hide CreateMemory, Starting;
  }

  lemma ReadySpawn(s: State, k: nat, p: Paging.State)
    requires Good(s, k) && s.active < PROCESS_COUNT_MAX && Paging.Shape(p) && Isolated(s, p) && Ready(s, p)
    requires CreateMemory(p, 0, 0).code == 0
    ensures var c := CreateMemory(p, 0, 0); Ready(SpawnStep(s, s.active, 0, c.directory), c.pages)
  {
    CreateMemoryMaps(p, 0, 0);
    FailureLosesMemory(p, 0, 0);
    hide CreateMemory, Starting, Good, Paging.KernelAt;
    var c := CreateMemory(p, 0, 0);
    forall i | 0 <= i < s.active
      ensures c.pages.tables[s.pcbs[i].context.directory] == p.tables[s.pcbs[i].context.directory]
    {
      assert p.used[s.pcbs[i].context.directory] && !p.used[c.directory];
    }
    SameKernel(p, c.pages, s);
  }

  lemma SameKernel(p: Paging.State, q: Paging.State, s: State)
    requires Paging.Shape(p) && Paging.Shape(q) && s.Table() && s.active <= PROCESS_COUNT_MAX
    requires forall i :: 0 <= i < s.active ==>
      var d := s.pcbs[i].context.directory; d < |p.tables| && q.tables[d] == p.tables[d]
    ensures forall i :: 0 <= i < s.active ==>
      (Paging.KernelAt(q, s.pcbs[i].context.directory) <==> Paging.KernelAt(p, s.pcbs[i].context.directory))
  {
  }

  lemma ReadyTick(s: State, k: nat, f: Frame, p: Paging.State)
    requires Good(s, k) && Paging.Shape(p) && Ready(s, p)
    ensures Ready(TickStep(s, f), p)
  {
    hide Current, Good, Live, Starting, Paging.KernelAt, Paging.UserAt, TickStep;
    Runs(s, k);
    TickSame(s, f);
    var t := TickStep(s, f);
    forall i | 0 <= i < s.active
      ensures t.pcbs[i].context.directory == s.pcbs[i].context.directory
      ensures t.pcbs[i].state == NEW ==> t.pcbs[i] == s.pcbs[i]
    {
    }
  }

  /** A tick leaves every page directory where it is, and a slot that is still new as it was. */
  lemma TickSame(s: State, f: Frame)
    requires s.Table() && 1 <= |s.queue| && s.active <= PROCESS_COUNT_MAX && Current(s) < PROCESS_COUNT_MAX
    ensures var t := TickStep(s, f);
      && t.active == s.active
      && forall i :: 0 <= i < s.active ==>
           t.pcbs[i].context.directory == s.pcbs[i].context.directory &&
           (t.pcbs[i].state == NEW ==> t.pcbs[i] == s.pcbs[i])
  {
    hide Current;
    var cur := Current(s);
    assert (s.queue + [cur])[0] == s.queue[0];
  }

  /** So no two processes can reach the same frame in user mode. */
  lemma SeparateFrames(s: State, p: Paging.State, i: nat, j: nat, x: nat, y: nat)
    requires s.Table() && Paging.Sound(p) && Isolated(s, p) && i < s.active && j < s.active && i != j
    requires Paging.UserAt(p, s.pcbs[i].context.directory, x) && Paging.UserAt(p, s.pcbs[j].context.directory, y)
    ensures Paging.FrameAt(p, s.pcbs[i].context.directory, x) != Paging.FrameAt(p, s.pcbs[j].context.directory, y)
  {
  }

  lemma Shorter(was: seq<nat>, slot: nat, rest: seq<nat>)
    requires was == [slot] + rest && forall i :: 0 <= i < |was| ==> was[i] < PROCESS_COUNT_MAX
    ensures slot < PROCESS_COUNT_MAX && forall i :: 0 <= i < |rest| ==> rest[i] < PROCESS_COUNT_MAX
  {
    assert was[0] == slot && forall i :: 0 <= i < |rest| ==> rest[i] == was[i + 1];
  }

  lemma Runs(s: State, k: nat)
    requires Good(s, k)
    ensures s.Table() && Current(s) < PROCESS_COUNT_MAX && 1 <= |s.queue| == s.active <= PROCESS_COUNT_MAX
  {
  }
}
