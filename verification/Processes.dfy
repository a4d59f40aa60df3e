/** Process control blocks and the ring the scheduler keeps them in. */
module Processes {
  const PROCESS_COUNT_MAX := 16
  const PROCESS_QUEUE_SIZE := 32

  datatype ProcessState = READY | RUNNING | BLOCKED | TERMINATED | NEW

  /** General purpose and segment registers. */
  datatype Cpu = Cpu(edi: nat, esi: nat, ebp: nat, esp: nat, ebx: nat, edx: nat, ecx: nat, eax: nat,
                     gs: nat, fs: nat, es: nat, ds: nat)

  datatype Context = Context(cpu: Cpu, eip: nat, eflags: nat, directory: nat)

  /** What the hardware pushes on an interrupt. */
  datatype Frame = Frame(cpu: Cpu, eip: nat, eflags: nat)

  datatype Pcb = Pcb(pid: nat, state: ProcessState, context: Context)

  const NO_CPU := Cpu(0, 0, 0, 0, 0, 0, 0, 0, 0, 0, 0, 0)
  const ZERO_PCB := Pcb(0, READY, Context(NO_CPU, 0, 0, 0))

  /**
    What a process that never ran has to find: interrupts on and no other flag but the reserved one, the user data
    segment with privilege level 3 in every selector, the top of user memory as its stack, and clear registers.
   */
  predicate Starting(c: Context)
  {
    && c.eflags / 512 % 2 == 1 && c.eflags - 512 == 2
    && c.cpu.ds % 4 == 3 && c.cpu.ds / 8 == 4 && c.cpu.es == c.cpu.ds && c.cpu.fs == c.cpu.ds && c.cpu.gs == c.cpu.ds
    && c.cpu.esp + 4 == 0xC000_0000 && c.cpu.ebp == c.cpu.esp
    && c.cpu.edi == c.cpu.esi == c.cpu.ebx == c.cpu.edx == c.cpu.ecx == c.cpu.eax == 0
  }

  /** Where a new process starts: at its entry, on its own stack, with interrupts enabled. */
  function StartContext(entry: nat, directory: nat): (c: Context)
    ensures c.directory == directory && c.eip == entry && Starting(c)
  {
    var cpu := NO_CPU.(ebp := 0xBFFFFFFC, esp := 0xBFFFFFFC, gs := 0x23, fs := 0x23, es := 0x23, ds := 0x23);
    Context(cpu, entry, 0x202, directory)
  }

  /** The interrupted state of a process that runs in this page directory. */
  function Captured(f: Frame, directory: nat): (c: Context)
    ensures c.directory == directory && Frame(c.cpu, c.eip, c.eflags) == f
  {
    Context(f.cpu, f.eip, f.eflags, directory)
  }

  /** The index of the i-th waiting item when the head stands at h. */
  function Place(h: nat, i: nat): (at: nat)
    ensures at < PROCESS_QUEUE_SIZE
  {
    (h + 1 + i) % PROCESS_QUEUE_SIZE
  }

  /** PCBQueue: one slot of the ring always stays empty. Items are process slots. */
  class Ring {
    const items: array<nat>
    var head: nat
    var tail: nat

    ghost predicate Valid()
      reads this
    {
      items.Length == PROCESS_QUEUE_SIZE && head < PROCESS_QUEUE_SIZE && tail < PROCESS_QUEUE_SIZE
    }

    ghost function Size(): (n: nat)
      reads this
      requires Valid()
    {
      if head <= tail then tail - head else tail + PROCESS_QUEUE_SIZE - head
    }

    /** The waiting slots, oldest first. */
    ghost function Contents(): (s: seq<nat>)
      reads this, items
      requires Valid()
      ensures |s| == Size() && forall i :: 0 <= i < |s| ==> s[i] == items[Place(head, i)]
    {
      seq(Size(), i requires Valid() && 0 <= i < Size() reads this, items => items[Place(head, i)])
    }

    constructor ()
      ensures Valid() && Contents() == [] && fresh(items)
    {
      items := new nat[PROCESS_QUEUE_SIZE](_ => 0);
      head, tail := 0, 0;
    }

    method Enqueue(slot: nat) returns (ok: bool)
      requires Valid()
      modifies this`tail, items
      ensures Valid()
      ensures ok <==> |old(Contents())| < PROCESS_QUEUE_SIZE - 1
      ensures ok <==> |old(Contents())| < 31
      ensures Contents() == if ok then old(Contents()) + [slot] else old(Contents())
    {
      if (tail + 1) % PROCESS_QUEUE_SIZE == head {
        return false;
      }
      tail := (tail + 1) % PROCESS_QUEUE_SIZE;
      items[tail] := slot;
      ok := true;
      assert Size() == old(Size()) + 1;
      assert forall i :: 0 <= i < old(Size()) ==> Place(head, i) != tail;
    }

    method Dequeue() returns (ok: bool, slot: nat)
      requires Valid()
      modifies this`head
      ensures Valid()
      ensures ok <==> old(Contents()) != []
      ensures ok ==> [slot] + Contents() == old(Contents())
      ensures !ok ==> Contents() == []
    {
      if head == tail {
        return false, 0;
      }
      head := (head + 1) % PROCESS_QUEUE_SIZE;
      slot := items[head];
      ok := true;
      assert forall i :: 0 <= i < Size() ==> Place(head, i) == Place(old(head), i + 1);
    }
  }
}
