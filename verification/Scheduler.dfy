/** The round-robin scheduler: the table scan and the ring have to agree on who runs. */
module Scheduler {
  import opened Processes

  /** The process table and the waiting slots. */
  datatype State = State(pcbs: seq<Pcb>, used: seq<bool>, queue: seq<nat>, active: nat, latest: nat)
  {
    ghost predicate Table() {
      |pcbs| == PROCESS_COUNT_MAX && |used| == PROCESS_COUNT_MAX &&
      forall i :: 0 <= i < |queue| ==> queue[i] < PROCESS_COUNT_MAX
    }
  }

  /** A slot the scan for the running process stops at. */
  predicate Live(s: State, i: nat)
    requires |s.pcbs| == |s.used| && i < |s.pcbs|
  {
    s.used[i] && (s.pcbs[i].state == RUNNING || s.pcbs[i].state == NEW)
  }

  /** The first live slot from i on; 16 if there is none. */
  ghost function CurrentFrom(s: State, i: nat): (c: nat)
    requires s.Table() && i <= PROCESS_COUNT_MAX
    ensures i <= c <= PROCESS_COUNT_MAX && (c < PROCESS_COUNT_MAX ==> Live(s, c))
    ensures forall j: nat :: i <= j < c ==> !Live(s, j)
    decreases PROCESS_COUNT_MAX - i
  {
    if i == PROCESS_COUNT_MAX || Live(s, i) then i else CurrentFrom(s, i + 1)
  }

  ghost function Current(s: State): (c: nat)
    requires s.Table()
    ensures c <= PROCESS_COUNT_MAX && (c < PROCESS_COUNT_MAX ==> Live(s, c)) && forall j: nat :: j < c ==> !Live(s, j)
  {
    CurrentFrom(s, 0)
  }

  /** What a timer tick captures: a process that never ran has nothing new to save. */
  function Saved(p: Pcb, f: Frame): (c: Context)
  {
    if p.state == NEW then p.context else Captured(f, p.context.directory)
  }

  /** A tick in one step: the current process goes to the end of the queue and the head of the queue runs. */
  ghost function TickStep(s: State, f: Frame): (t: State)
    requires s.Table() && Current(s) < PROCESS_COUNT_MAX
    ensures t.Table()
  {
    var cur := Current(s);
    var tokens := s.queue + [cur];
    var saved := s.pcbs[cur := s.pcbs[cur].(state := READY, context := Saved(s.pcbs[cur], f))];
    s.(pcbs := saved[tokens[0] := saved[tokens[0]].(state := RUNNING)], queue := tokens[1..])
  }

  /** A successful creation in one step. */
  ghost function CreateStep(s: State, slot: nat, entry: nat, directory: nat): (t: State)
    requires s.Table() && slot < PROCESS_COUNT_MAX
    ensures t.Table()
  {
    var pcb := Pcb(slot, NEW, StartContext(entry, directory));
    State(s.pcbs[slot := pcb], s.used[slot := true], s.queue, s.active + 1, slot)
  }

  /** A system call that creates a process also queues it. */
  ghost function SpawnStep(s: State, slot: nat, entry: nat, directory: nat): (t: State)
    requires s.Table() && slot < PROCESS_COUNT_MAX
    ensures t.Table()
  {
    var c := CreateStep(s, slot, entry, directory);
    c.(queue := c.queue + [slot])
  }

  ghost function PowerOn(): (s: State)
    ensures s.Table()
  {
    State(seq(PROCESS_COUNT_MAX, _ => ZERO_PCB), seq(PROCESS_COUNT_MAX, _ => false), [], 0, 0)
  }

  /** The state kernel set-up leaves: the boot process created, and queued although it counts as running. */
  ghost function BootState(entry: nat, directory: nat): (s: State)
    ensures s.Table()
  {
    SpawnStep(PowerOn(), 0, entry, directory)
  }

  /** The tokens that circulate: the queue and the running process. */
  ghost function Tokens(s: State): (t: seq<nat>)
    requires s.Table()
  {
    s.queue + [Current(s)]
  }

  ghost function Everyone(n: nat): (m: multiset<nat>)
  {
    if n == 0 then multiset{} else Everyone(n - 1) + multiset{n - 1 as nat}
  }

  /**
    The invariant, with k the number of processes that have been dispatched: slots fill in order; those from k on
    are new and wait in order; among the others exactly one runs, once k > 0; and the tokens are
    every process once and the boot process twice.
   */
  ghost predicate Good(s: State, k: nat)
  {
    && s.Table() && 1 <= s.active <= PROCESS_COUNT_MAX && k <= s.active && s.latest == s.active - 1
    && (forall i :: 0 <= i < PROCESS_COUNT_MAX ==>
         s.used[i] == (i < s.active) && s.pcbs[i].pid == if i < s.active then i else 0)
    && (forall i :: 0 <= i < s.active ==> (s.pcbs[i].state == NEW <==> k <= i))
    && (if k == 0 then Current(s) == 0 else Current(s) < k)
    && (forall i :: 0 <= i < k ==> s.pcbs[i].state == if i == Current(s) then RUNNING else READY)
    && |s.queue| == s.active
    && multiset(Tokens(s)) == Everyone(s.active) + multiset{0}
    && (forall i, j :: 0 <= i < j < |s.queue| && k <= s.queue[i] && k <= s.queue[j] ==> s.queue[i] < s.queue[j])
  }

  lemma CurrentIs(s: State, c: nat)
    requires s.Table() && c < PROCESS_COUNT_MAX && Live(s, c) && forall j: nat :: j < c ==> !Live(s, j)
    ensures Current(s) == c
  {
  }

  lemma EveryoneCount(n: nat, p: nat)
    ensures Everyone(n)[p] == if p < n then 1 else 0
  {
  }

  /** After kernel set-up. */
  lemma GoodBoot(entry: nat, directory: nat)
    ensures Good(BootState(entry, directory), 0)
  {
    var s := BootState(entry, directory);
    CurrentIs(s, 0);
    assert Everyone(1) == multiset{0};
  }

  /** How often a slot waits. */
  lemma QueueCount(s: State, k: nat, p: nat)
    requires Good(s, k)
    ensures multiset(s.queue)[p] ==
            (if p < s.active then 1 else 0) + (if p == 0 then 1 else 0) - (if p == Current(s) then 1 else 0)
  {
    EveryoneCount(s.active, p);
    assert multiset(Tokens(s)) == multiset(s.queue) + multiset{Current(s)};
    assert multiset(Tokens(s))[p] == Everyone(s.active)[p] + multiset{0 as nat}[p];
  }

  lemma QueuedAt(s: State, k: nat, p: nat) returns (i: nat)
    requires Good(s, k) && p < s.active && (p != Current(s) || p == 0)
    ensures i < |s.queue| && s.queue[i] == p
  {
    QueueCount(s, k, p);
    assert p in multiset(s.queue);
    i :| 0 <= i < |s.queue| && s.queue[i] == p;
  }

  lemma QueuedOnce(s: State, k: nat, i: nat)
    requires Good(s, k) && i < |s.queue|
    ensures s.queue[i] < s.active
  {
    QueueCount(s, k, s.queue[i]);
    assert s.queue[i] in multiset(s.queue);
  }

  /** The head of the queue is either an old process or the first of the new ones. */
  lemma HeadInOrder(s: State, k: nat)
    requires Good(s, k)
    ensures s.queue[0] <= k && s.queue[0] < s.active
  {
    QueuedOnce(s, k, 0);
    if k < s.active && k < s.queue[0] {
      var i := QueuedAt(s, k, k);
    }
  }

  /** Dispatched so far, after dispatching slot p. */
  function Reached(k: nat, p: nat): (r: nat)
  {
    if p == k then k + 1 else k
  }

  lemma TickStates(s: State, k: nat, f: Frame)
    requires Good(s, k) && s.queue[0] <= k && s.queue[0] < s.active
    ensures var t, p, r := TickStep(s, f), s.queue[0], Reached(k, s.queue[0]);
      && (forall i :: 0 <= i < PROCESS_COUNT_MAX ==> t.pcbs[i].pid == s.pcbs[i].pid)
      && (forall i :: 0 <= i < s.active ==> (t.pcbs[i].state == NEW <==> r <= i))
      && (forall i :: 0 <= i < r ==> t.pcbs[i].state == if i == p then RUNNING else READY)
  {
    hide Current, Live, Everyone;
  }

  lemma TickTable(s: State, k: nat, f: Frame)
    requires Good(s, k)
    ensures var t, p, r := TickStep(s, f), s.queue[0], Reached(k, s.queue[0]);
      && Current(t) == p && p < r <= s.active
      && (forall i :: 0 <= i < PROCESS_COUNT_MAX ==> t.pcbs[i].pid == s.pcbs[i].pid)
      && (forall i :: 0 <= i < s.active ==> (t.pcbs[i].state == NEW <==> r <= i))
      && (forall i :: 0 <= i < r ==> t.pcbs[i].state == if i == p then RUNNING else READY)
  {
    HeadInOrder(s, k);
    TickStates(s, k, f);
    CurrentIs(TickStep(s, f), s.queue[0]);
  }

  /** A tick moves the first token to the end. */
  lemma TickRotates(s: State, k: nat, f: Frame)
    requires Good(s, k)
    ensures var ts := Tokens(s); Tokens(TickStep(s, f)) == ts[1..] + [ts[0]] && Current(TickStep(s, f)) == ts[0]
  {
    hide Current;
    TickTable(s, k, f);
    assert Tokens(s)[0] == s.queue[0];
  }

  lemma RotateKeeps(ts: seq<nat>)
    requires ts != []
    ensures multiset(ts[1..] + [ts[0]]) == multiset(ts)
  {
    assert ts == [ts[0]] + ts[1..];
  }

  /** New processes still wait in order. */
  lemma TickOrder(s: State, k: nat, f: Frame)
    requires Good(s, k)
    ensures var t, r := TickStep(s, f), Reached(k, s.queue[0]);
      forall i, j :: 0 <= i < j < |t.queue| && r <= t.queue[i] && r <= t.queue[j] ==> t.queue[i] < t.queue[j]
  {
    HeadInOrder(s, k);
    var q := s.queue;
    assert TickStep(s, f).queue == q[1..] + [Current(s)];
    assert k == 0 ==> q[0] == 0;
  }

  lemma GoodTick(s: State, k: nat, f: Frame)
    requires Good(s, k)
    ensures Good(TickStep(s, f), Reached(k, s.queue[0]))
  {
    hide Current;
    TickTable(s, k, f);
    TickRotates(s, k, f);
    RotateKeeps(Tokens(s));
    TickOrder(s, k, f);
  }

  lemma SpawnCurrent(s: State, k: nat, entry: nat, directory: nat)
    requires Good(s, k) && s.active < PROCESS_COUNT_MAX
    ensures Current(SpawnStep(s, s.active, entry, directory)) == Current(s)
  {
    var t, c := SpawnStep(s, s.active, entry, directory), Current(s);
    assert forall j: nat :: j < c ==> !Live(s, j) && t.pcbs[j] == s.pcbs[j] && t.used[j] == s.used[j];
    CurrentIs(t, c);
  }

  lemma SpawnTokens(q: seq<nat>, c: nat, n: nat)
    requires multiset(q + [c]) == Everyone(n) + multiset{0}
    ensures multiset(q + [n] + [c]) == Everyone(n + 1) + multiset{0}
  {
    assert q + [n] + [c] == q + ([n] + [c]);
    assert multiset(q + [n] + [c]) == multiset(q + [c]) + multiset{n};
  }

  lemma SpawnOrder(s: State, k: nat)
    requires Good(s, k)
    ensures var q := s.queue + [s.active];
      forall i, j :: 0 <= i < j < |q| && k <= q[i] && k <= q[j] ==> q[i] < q[j]
  {
    hide Current, Live, Everyone, Tokens;
    forall i | 0 <= i < |s.queue|
      ensures s.queue[i] < s.active
    {
      QueuedOnce(s, k, i);
    }
  }

  lemma GoodSpawn(s: State, k: nat, entry: nat, directory: nat)
    requires Good(s, k) && s.active < PROCESS_COUNT_MAX
    ensures Good(SpawnStep(s, s.active, entry, directory), k)
  {
    SpawnCurrent(s, k, entry, directory);
    SpawnOrder(s, k);
    SpawnStates(s, k, entry, directory);
    SpawnKeepsTokens(s, k, entry, directory);
    hide Current, Live, Everyone, SpawnStep, Tokens;
  }

  lemma SpawnKeepsTokens(s: State, k: nat, entry: nat, directory: nat)
    requires Good(s, k) && s.active < PROCESS_COUNT_MAX
    ensures multiset(Tokens(SpawnStep(s, s.active, entry, directory))) == Everyone(s.active + 1) + multiset{0}
  {
    hide Current, Live, Everyone;
    SpawnCurrent(s, k, entry, directory);
    SpawnTokens(s.queue, Current(s), s.active);
  }

  lemma SpawnStates(s: State, k: nat, entry: nat, directory: nat)
    requires Good(s, k) && s.active < PROCESS_COUNT_MAX
    ensures var t := SpawnStep(s, s.active, entry, directory);
      && t.active == s.active + 1 && t.latest == s.active && t.queue == s.queue + [s.active]
      && (forall i :: 0 <= i < PROCESS_COUNT_MAX ==>
           t.used[i] == (i < t.active) && t.pcbs[i].pid == if i < t.active then i else 0)
      && (forall i :: 0 <= i < t.active ==> (t.pcbs[i].state == NEW <==> k <= i))
      && (forall i :: 0 <= i < k ==> t.pcbs[i].state == s.pcbs[i].state)
  {
    hide Current, Live, Everyone;
  }

  /** The slots from i on that carry this pid, in order. */
  function Carrying(pcbs: seq<Pcb>, pid: nat, i: nat): (r: seq<nat>)
    requires i <= |pcbs|
    ensures |r| <= |pcbs| - i && forall j :: 0 <= j < |r| ==> i <= r[j] < |pcbs|
    decreases |pcbs| - i
  {
    if i == |pcbs| then [] else (if pcbs[i].pid == pid then [i] else []) + Carrying(pcbs, pid, i + 1)
  }

  /**
    A creation that failed half-way: its slot is cleared again, and the system call queues the latest process a second
    time.
   */
  ghost function FailedStep(s: State, slot: nat): (t: State)
    requires s.Table() && slot < PROCESS_COUNT_MAX
    ensures t.Table()
  {
    var pcbs := s.pcbs[slot := ZERO_PCB];
    s.(pcbs := pcbs, queue := s.queue + Carrying(pcbs, s.latest, 0))
  }

  lemma {:induction false} CarryingOne(pcbs: seq<Pcb>, pid: nat, slot: nat, i: nat)
    requires slot < |pcbs| && i <= |pcbs| && forall j :: 0 <= j < |pcbs| ==> (pcbs[j].pid == pid <==> j == slot)
    ensures Carrying(pcbs, pid, i) == if i <= slot then [slot] else []
    decreases |pcbs| - i
  {
    if i < |pcbs| { CarryingOne(pcbs, pid, slot, i + 1); }
  }

  lemma {:induction false} CarryingAll(pcbs: seq<Pcb>, pid: nat, i: nat)
    requires i <= |pcbs| && forall j :: 0 <= j < |pcbs| ==> pcbs[j].pid == pid
    ensures Carrying(pcbs, pid, i) == seq(|pcbs| - i, j => i + j)
    decreases |pcbs| - i
  {
    if i < |pcbs| { CarryingAll(pcbs, pid, i + 1); }
  }

  /**
    A failed creation always breaks the invariant.  With several processes the youngest gets a second token; with the
    boot process alone, whose pid is that of every unused slot, all sixteen slots are queued.
   */
  lemma FailedQueues(s: State, k: nat)
    requires Good(s, k) && s.active < PROCESS_COUNT_MAX
    ensures var t := FailedStep(s, s.active);
      && t.queue == s.queue + (if s.active == 1 then seq(PROCESS_COUNT_MAX, i => i) else [s.active - 1])
      && forall j :: !Good(t, j)
  {
    hide Current, Everyone, Tokens, Live;
    var t := FailedStep(s, s.active);
    if s.active == 1 {
      CarryingAll(t.pcbs, 0, 0);
    } else {
      CarryingOne(t.pcbs, s.latest, s.active - 1, 0);
    }
    assert t.active == s.active && |t.queue| > s.active;
  }

  /** Slot 0 alone is in use, and these slots wait. */
  ghost predicate BootAlone(s: State, queue: seq<nat>)
  {
    s.Table() && Live(s, 0) && s.queue == queue &&
    forall i :: 0 < i < PROCESS_COUNT_MAX ==> !s.used[i] && s.pcbs[i] == ZERO_PCB
  }

  lemma BootTick(s: State, f: Frame, rest: seq<nat>)
    requires BootAlone(s, [0] + rest)
    ensures Current(s) == 0 && BootAlone(TickStep(s, f), rest + [0])
  {
    CurrentIs(s, 0);
  }

  lemma LastTick(s: State, f: Frame, rest: seq<nat>)
    requires BootAlone(s, [1] + rest)
    ensures Current(s) == 0
    ensures var t := TickStep(s, f);
      t.pcbs[1] == ZERO_PCB.(state := RUNNING) && !t.used[1] && Current(t) == PROCESS_COUNT_MAX
  {
    CurrentIs(s, 0);
    var t := TickStep(s, f);
    assert forall i: nat :: i < PROCESS_COUNT_MAX ==> !Live(t, i);
  }

  lemma AfterFailure(entry: nat, directory: nat)
    ensures BootAlone(FailedStep(BootState(entry, directory), 1), [0] + ([0] + seq(PROCESS_COUNT_MAX - 1, i => 1 + i)))
  {
    var b := BootState(entry, directory);
    var pcbs := b.pcbs[1 := ZERO_PCB];
    CarryingAll(pcbs, 0, 0);
    assert seq(PROCESS_COUNT_MAX, i => i) == [0] + seq(PROCESS_COUNT_MAX - 1, i => 1 + i);
  }

  /** The third tick after that hands the processor to a slot nobody uses, and the fourth finds no current process. */
  lemma StraySlotRuns(entry: nat, directory: nat, f: Frame, g: Frame, h: Frame)
    ensures var s := FailedStep(BootState(entry, directory), 1);
      && Current(s) == 0 && Current(TickStep(s, f)) == 0 && Current(TickStep(TickStep(s, f), g)) == 0
      && var t := TickStep(TickStep(TickStep(s, f), g), h);
         t.pcbs[1] == ZERO_PCB.(state := RUNNING) && !t.used[1] && Current(t) == PROCESS_COUNT_MAX
  {
    hide Current, FailedStep, BootState, TickStep, BootAlone;
    var ids := seq<nat>(PROCESS_COUNT_MAX - 1, i => 1 + i);
    AfterFailure(entry, directory);
    var s := FailedStep(BootState(entry, directory), 1);
    BootTick(s, f, [0] + ids);
    var s1 := TickStep(s, f);
    assert [0] + ids + [0] == [0] + (ids + [0]);
    BootTick(s1, g, ids + [0]);
    assert ids + [0] + [0] == [1] + (ids[1..] + [0] + [0]);
    LastTick(TickStep(s1, g), h, ids[1..] + [0] + [0]);
  }
}
