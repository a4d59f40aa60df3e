/** Whole runs of the scheduler: boot, timer ticks and process creations in any order, without kills. */
module SchedulerRuns {
  import opened Processes
  import opened Scheduler

  datatype Event = Tick(frame: Frame) | Spawn(entry: nat, directory: nat)

  /** What can be seen from outside: creations, and processes losing and getting the processor. */
  datatype Obs =
    | Created(slot: nat, context: Context)
    | Preempted(slot: nat, frame: Frame)
    | Dispatched(slot: nat, context: Context)

  datatype Option<T> = None | Some(value: T)

  function Spawns(events: seq<Event>): (n: nat)
  {
    if events == [] then 0 else Spawns(events[..|events| - 1]) + if events[|events| - 1].Spawn? then 1 else 0
  }

  ghost predicate IsGood(s: State)
  {
    exists k :: Good(s, k)
  }

  /** One event; the invariant is kept. */
  ghost function Step(s: State, e: Event): (t: State)
    requires IsGood(s) && (e.Spawn? ==> s.active < PROCESS_COUNT_MAX)
    ensures IsGood(t) && t.active == s.active + if e.Spawn? then 1 else 0
  {
    var k :| Good(s, k);
    match e
    case Tick(f) =>
      GoodTick(s, k, f);
      TickStep(s, f)
    case Spawn(entry, directory) =>
      GoodSpawn(s, k, entry, directory);
      SpawnStep(s, s.active, entry, directory)
  }

  /** The state after booting and these events, of which at most 15 are creations. */
  ghost function Run(boot: Event, events: seq<Event>): (s: State)
    requires boot.Spawn? && Spawns(events) < PROCESS_COUNT_MAX
    ensures IsGood(s) && s.active == 1 + Spawns(events)
    decreases |events|
  {
    if events == [] then
      GoodBoot(boot.entry, boot.directory);
      BootState(boot.entry, boot.directory)
    else Step(Run(boot, events[..|events| - 1]), events[|events| - 1])
  }

  /** The process on the processor is the one last dispatched. */
  function OnCpu(log: seq<Obs>): (p: Option<nat>)
  {
    if log == [] then None
    else
      match log[|log| - 1]
      case Dispatched(p, _) => Some(p)
      case _ => OnCpu(log[..|log| - 1])
  }

  /** What process p has to resume with: its state at its last preemption, or else at creation. */
  function Resume(log: seq<Obs>, p: nat): (c: Option<Context>)
  {
    if log == [] then None
    else
      var rest := Resume(log[..|log| - 1], p);
      match log[|log| - 1]
      case Created(q, c) => if q == p then Some(c) else rest
      case Preempted(q, f) => if q == p && rest.Some? then Some(Captured(f, rest.value.directory)) else rest
      case Dispatched(_, _) => rest
  }

  /** The page directory process p was created with. */
  function Home(log: seq<Obs>, p: nat): (d: Option<nat>)
  {
    if log == [] then None
    else
      match log[|log| - 1]
      case Created(q, c) => if q == p then Some(c.directory) else Home(log[..|log| - 1], p)
      case _ => Home(log[..|log| - 1], p)
  }

  /** What one event adds to the log: a tick takes the processor from whoever has it. */
  ghost function Seen(log: seq<Obs>, s: State, e: Event): (o: seq<Obs>)
    requires IsGood(s) && (e.Spawn? ==> s.active < PROCESS_COUNT_MAX)
  {
    match e
    case Spawn(entry, directory) => [Created(s.active, StartContext(entry, directory))]
    case Tick(f) =>
      var t := Step(s, e);
      (if OnCpu(log).Some? then [Preempted(OnCpu(log).value, f)] else []) +
      [Dispatched(Current(t), t.pcbs[Current(t)].context)]
  }

  ghost function Log(boot: Event, events: seq<Event>): (log: seq<Obs>)
    requires boot.Spawn? && Spawns(events) < PROCESS_COUNT_MAX
    decreases |events|
  {
    if events == [] then [Created(0, StartContext(boot.entry, boot.directory))]
    else
      var before := events[..|events| - 1];
      Log(boot, before) + Seen(Log(boot, before), Run(boot, before), events[|events| - 1])
  }

  /** Every dispatch hands over what that process has to resume with, in its own page directory. */
  ghost predicate Faithful(log: seq<Obs>)
  {
    forall i :: 0 <= i < |log| && log[i].Dispatched? ==>
      Resume(log[..i], log[i].slot) == Some(log[i].context) &&
        Home(log[..i], log[i].slot) == Some(log[i].context.directory)
  }

  /** The table remembers for every process what the log says it has to resume with. */
  ghost predicate Agrees(s: State, k: nat, log: seq<Obs>)
  {
    && Good(s, k)
    && OnCpu(log) == (if k == 0 then None else Some(Current(s)))
    && (forall p :: 0 <= p < s.active ==>
          Resume(log, p) == Some(s.pcbs[p].context) && Home(log, p) == Some(s.pcbs[p].context.directory))
    && Faithful(log)
  }

  /** The definitions above, one observation at a time. */
  lemma LogGrows(log: seq<Obs>, o: Obs, p: nat)
    ensures OnCpu(log + [o]) == if o.Dispatched? then Some(o.slot) else OnCpu(log)
    ensures Resume(log + [o], p) ==
      (if o.Created? && o.slot == p then Some(o.context)
       else if o.Preempted? && o.slot == p && Resume(log, p).Some?
         then Some(Captured(o.frame, Resume(log, p).value.directory))
       else Resume(log, p))
    ensures Home(log + [o], p) == if o.Created? && o.slot == p then Some(o.context.directory) else Home(log, p)
  {
    assert (log + [o])[..|log|] == log;
  }

  lemma FaithfulGrows(log: seq<Obs>, o: Obs)
    requires Faithful(log)
    requires o.Dispatched? ==> Resume(log, o.slot) == Some(o.context) && Home(log, o.slot) == Some(o.context.directory)
    ensures Faithful(log + [o])
  {
    hide Resume, Home;
    var l := log + [o];
    forall i | 0 <= i < |l| && l[i].Dispatched?
      ensures Resume(l[..i], l[i].slot) == Some(l[i].context) && Home(l[..i], l[i].slot) == Some(l[i].context.directory)
    {
      assert l[..i] == log[..i];
      assert log[..|log|] == log;
    }
  }

  lemma AgreesSpawn(s: State, k: nat, log: seq<Obs>, entry: nat, directory: nat)
    requires Agrees(s, k, log) && s.active < PROCESS_COUNT_MAX
    ensures Agrees(SpawnStep(s, s.active, entry, directory), k,
      log + [Created(s.active, StartContext(entry, directory))])
  {
    hide Resume, Home, OnCpu, Current, Good, Faithful;
    GoodParts(s, k);
    GoodSpawn(s, k, entry, directory);
    SpawnCurrent(s, k, entry, directory);
    var o := Created(s.active, StartContext(entry, directory));
    forall p: nat { LogGrows(log, o, p); }
    FaithfulGrows(log, o);
  }

  lemma GoodParts(s: State, k: nat)
    requires Good(s, k)
    ensures s.Table() && s.active <= PROCESS_COUNT_MAX && Current(s) < s.active && |s.queue| == s.active
    ensures s.pcbs[Current(s)].state == NEW <==> k == 0
    ensures k > 0 ==> s.pcbs[Current(s)].state == RUNNING
    ensures k == 0 ==> Current(s) == 0
  {
  }

  lemma AgreesTick(s: State, k: nat, log: seq<Obs>, f: Frame)
    requires Agrees(s, k, log)
    ensures var t := TickStep(s, f);
      var first := if k == 0 then log else log + [Preempted(Current(s), f)];
      Current(t) < |t.pcbs| && Agrees(t, Reached(k, s.queue[0]),
        first + [Dispatched(Current(t), t.pcbs[Current(t)].context)])
  {
    hide Resume, Home, OnCpu, Current, Good, Faithful;
    GoodParts(s, k);
    GoodTick(s, k, f);
    TickTable(s, k, f);
    var t, c := TickStep(s, f), Current(s);
    GoodParts(t, Reached(k, s.queue[0]));
    var first := if k == 0 then log else log + [Preempted(c, f)];
    if k > 0 {
      forall p: nat { LogGrows(log, Preempted(c, f), p); }
      FaithfulGrows(log, Preempted(c, f));
    }
    assert forall p :: 0 <= p < s.active ==>
        Resume(first, p) == Some(t.pcbs[p].context) && Home(first, p) == Some(t.pcbs[p].context.directory);
    var o := Dispatched(Current(t), t.pcbs[Current(t)].context);
    forall p: nat { LogGrows(first, o, p); }
    FaithfulGrows(first, o);
  }

  predicate HasTick(events: seq<Event>)
  {
    exists i :: 0 <= i < |events| && events[i].Tick?
  }

  lemma HasTickInit(events: seq<Event>)
    requires events != []
    ensures HasTick(events) <==> HasTick(events[..|events| - 1]) || events[|events| - 1].Tick?
  {
    var before := events[..|events| - 1];
    if HasTick(before) {
      var i :| 0 <= i < |before| && before[i].Tick?;
      assert events[i].Tick?;
    }
  }

  lemma StepAgrees(s: State, k: nat, log: seq<Obs>, e: Event) returns (l: nat)
    requires Agrees(s, k, log) && Good(s, k) && (e.Spawn? ==> s.active < PROCESS_COUNT_MAX)
    ensures Agrees(Step(s, e), l, log + Seen(log, s, e)) && (l > 0 <==> k > 0 || e.Tick?)
  {
    hide Agrees, Good, TickStep, SpawnStep, Resume, Home, Current, OnCpu;
    AgreesParts(s, k, log);
    GoodParts(s, k);
    match e {
      case Spawn(entry, directory) =>
        AgreesSpawn(s, k, log, entry, directory);
        StepSpawn(s, e, k);
        l := k;
      case Tick(f) =>
        AgreesTick(s, k, log, f);
        StepTick(s, f, k);
        TickTable(s, k, f);
        l := Reached(k, s.queue[0]);
        ghost var o := Dispatched(Current(TickStep(s, f)), TickStep(s, f).pcbs[Current(TickStep(s, f))].context);
        assert (log + [Preempted(Current(s), f)]) + [o] == log + ([Preempted(Current(s), f)] + [o]);
        assert [] + [o] == [o];
    }
  }

  /** The log and the table agree in every run. */
  lemma {:induction false} RunAgrees(boot: Event, events: seq<Event>) returns (k: nat)
    requires boot.Spawn? && Spawns(events) < PROCESS_COUNT_MAX
    ensures Agrees(Run(boot, events), k, Log(boot, events)) && (k > 0 <==> HasTick(events))
    decreases |events|
  {
    if events == [] {
      k := 0;
      BootAgrees(boot);
    } else {
      hide Agrees, Good, Step, Seen, HasTick, IsGood;
      k := RunAgrees(boot, events[..|events| - 1]);
      HasTickInit(events);
      AgreesParts(Run(boot, events[..|events| - 1]), k, Log(boot, events[..|events| - 1]));
      k := StepAgrees(Run(boot, events[..|events| - 1]), k, Log(boot, events[..|events| - 1]), events[|events| - 1]);
    }
  }

  lemma BootAgrees(boot: Event)
    requires boot.Spawn?
    ensures Agrees(BootState(boot.entry, boot.directory), 0, [Created(0, StartContext(boot.entry, boot.directory))])
  {
    GoodBoot(boot.entry, boot.directory);
    var o := Created(0, StartContext(boot.entry, boot.directory));
    LogGrows([], o, 0);
    assert [] + [o] == [o];
  }

  lemma AgreesParts(s: State, k: nat, log: seq<Obs>)
    requires Agrees(s, k, log)
    ensures Good(s, k) && OnCpu(log) == (if k == 0 then None else Some(Current(s)))
  {
  }

  /** In every run each dispatch resumes a process exactly where it was last preempted, or at its start, at home. */
  lemma RunIsFaithful(boot: Event, events: seq<Event>)
    requires boot.Spawn? && Spawns(events) < PROCESS_COUNT_MAX
    ensures Faithful(Log(boot, events))
  {
    var k := RunAgrees(boot, events);
  }

  /** From the first tick on, exactly the process on the processor is marked running, and the table scan finds it. */
  lemma OneRunning(boot: Event, events: seq<Event>)
    requires boot.Spawn? && Spawns(events) < PROCESS_COUNT_MAX && HasTick(events)
    ensures var s := Run(boot, events);
      && s.Table() && OnCpu(Log(boot, events)) == Some(Current(s))
      && forall i :: 0 <= i < PROCESS_COUNT_MAX ==> (s.used[i] && s.pcbs[i].state == RUNNING <==> i == Current(s))
  {
    var k := RunAgrees(boot, events);
    RunningIsCurrent(Run(boot, events), k);
  }

  lemma RunningIsCurrent(s: State, k: nat)
    requires Good(s, k) && k > 0
    ensures forall i :: 0 <= i < PROCESS_COUNT_MAX ==> (s.used[i] && s.pcbs[i].state == RUNNING <==> i == Current(s))
  {
  }

  /** Processes that never ran sit above all that did. */
  lemma NewAbove(boot: Event, events: seq<Event>)
    requires boot.Spawn? && Spawns(events) < PROCESS_COUNT_MAX
    ensures var s := Run(boot, events);
      && |s.pcbs| == |s.used| == PROCESS_COUNT_MAX
      && forall i, j :: 0 <= i < 16 && 0 <= j < 16 && s.used[i] && s.used[j] ==>
           s.pcbs[i].state == NEW && s.pcbs[j].state != NEW ==> j < i
  {
    var k := RunAgrees(boot, events);
  }

  /** The queue and the current process: everyone once, the boot process twice; so the ring is never full. */
  lemma Conserved(boot: Event, events: seq<Event>)
    requires boot.Spawn? && Spawns(events) < PROCESS_COUNT_MAX
    ensures var s := Run(boot, events);
      && s.Table() && multiset(s.queue) + multiset{Current(s)} == Everyone(1 + Spawns(events)) + multiset{0}
      && |s.queue| == 1 + Spawns(events) && |s.queue + [Current(s)]| < PROCESS_QUEUE_SIZE
  {
    hide Good, Current, Everyone, Agrees, Log, IsGood;
    var k := RunAgrees(boot, events);
    AgreesParts(Run(boot, events), k, Log(boot, events));
    ConservedIn(Run(boot, events), k);
  }

  lemma ConservedIn(s: State, k: nat)
    requires Good(s, k)
    ensures s.Table() && multiset(s.queue) + multiset{Current(s)} == Everyone(s.active) + multiset{0}
    ensures |s.queue| == s.active <= PROCESS_COUNT_MAX
  {
    hide Current, Everyone, Live;
    assert multiset(Tokens(s)) == multiset(s.queue) + multiset{Current(s)};
  }

  /** Only ticks. */
  ghost function Ticks(s: State, frames: seq<Frame>): (t: State)
    requires IsGood(s)
    ensures IsGood(t) && t.active == s.active
    decreases |frames|
  {
    if frames == [] then s else Step(Ticks(s, frames[..|frames| - 1]), Tick(frames[|frames| - 1]))
  }

  lemma ModUnique(x: nat, m: nat, q: nat, r: nat)
    requires m > 0 && x == m * q + r && r < m
    ensures x % m == r
  {
    var d := x / m - q;
    assert x == m * (x / m) + x % m;
    assert m * d == m * (x / m) - m * q;
    assert d >= 1 ==> m * d >= m;
    assert d <= -1 ==> m * d + m <= 0;
  }

  lemma ModShift(a: nat, m: nat)
    requires m > 0
    ensures (a + m) % m == a % m
  {
    assert a == m * (a / m) + a % m;
    assert a + m == m * (a / m + 1) + a % m;
    ModUnique(a + m, m, a / m + 1, a % m);
  }

  /** The sequence us is ts rotated a times to the left. */
  ghost predicate RotatedBy(us: seq<nat>, ts: seq<nat>, a: nat)
  {
    |us| == |ts| && forall i {:trigger us[i]} :: 0 <= i < |us| ==> us[i] == ts[(i + a) % |ts|]
  }

  lemma RotatedNone(ts: seq<nat>)
    ensures RotatedBy(ts, ts, 0)
  {
    forall i {:trigger ts[i]} | 0 <= i < |ts|
      ensures ts[i] == ts[(i + 0) % |ts|]
    {
      ModUnique(i, |ts|, 0, i);
    }
  }

  lemma RotatedOnce(ts: seq<nat>, us: seq<nat>, a: nat)
    requires RotatedBy(us, ts, a) && ts != []
    ensures RotatedBy(us[1..] + [us[0]], ts, a + 1)
  {
    var m, vs := |ts|, us[1..] + [us[0]];
    forall i | 0 <= i < m
      ensures vs[i] == ts[(i + (a + 1)) % m]
    {
      if i < m - 1 {
        assert vs[i] == us[i + 1];
        assert i + 1 + a == i + (a + 1);
      } else {
        ModShift(a, m);
        assert us[0] == ts[(0 + a) % m];
        assert i + (a + 1) == a + m;
      }
    }
  }

  /** Ticks rotate the tokens. */
  lemma {:induction false} TicksRotate(s: State, frames: seq<Frame>)
    requires IsGood(s)
    ensures s.Table() && Ticks(s, frames).Table() && |Tokens(s)| == s.active + 1
    ensures RotatedBy(Tokens(Ticks(s, frames)), Tokens(s), |frames|)
    decreases |frames|
  {
    hide Good, Current, TickStep, RotatedBy, Tokens;
    var k :| Good(s, k);
    GoodTokens(s, k);
    if frames == [] {
      RotatedNone(Tokens(s));
    } else {
      var before, f := frames[..|frames| - 1], frames[|frames| - 1];
      TicksRotate(s, before);
      var u := Ticks(s, before);
      var l :| Good(u, l);
      GoodTokens(u, l);
      TickRotates(u, l, f);
      RotatedOnce(Tokens(s), Tokens(u), |before|);
      StepTick(u, f, l);
    }
  }

  lemma GoodTokens(s: State, k: nat)
    requires Good(s, k)
    ensures s.Table() && |Tokens(s)| == s.active + 1 && Tokens(s)[s.active] == Current(s) && Current(s) < s.active
    ensures Tokens(s)[..s.active] == s.queue
  {
  }

  lemma StepSpawn(s: State, e: Event, k: nat)
    requires Good(s, k) && e.Spawn? && s.active < PROCESS_COUNT_MAX
    ensures s.Table() && Step(s, e) == SpawnStep(s, s.active, e.entry, e.directory)
  {
  }

  lemma StepTick(s: State, f: Frame, k: nat)
    requires Good(s, k)
    ensures Current(s) < PROCESS_COUNT_MAX && Step(s, Tick(f)) == TickStep(s, f) && TickStep(s, f).Table()
  {
  }

  /** The t-th tick from here dispatches the (t-1)-th token, round and round. */
  lemma RoundRobin(s: State, frames: seq<Frame>)
    requires IsGood(s) && frames != []
    ensures s.Table() && |Tokens(s)| == s.active + 1 && Ticks(s, frames).Table()
    ensures Current(Ticks(s, frames)) == Tokens(s)[(|frames| - 1) % (s.active + 1)]
  {
    hide Good, Current, TickStep, Tokens, RotatedBy;
    var t := Ticks(s, frames);
    var l :| Good(t, l);
    GoodTokens(t, l);
    TicksRotate(s, frames);
    LastRotated(Tokens(s), Tokens(t), |frames|, s.active);
  }

  lemma LastRotated(ts: seq<nat>, us: seq<nat>, a: nat, n: nat)
    requires RotatedBy(us, ts, a) && |ts| == n + 1 && a > 0
    ensures |us| == n + 1 && us[n] == ts[(a - 1) % (n + 1)]
  {
    ModShift(a - 1, n + 1);
    assert n + a == a - 1 + (n + 1);
  }

  lemma FirstRound(s: State, frames: seq<Frame>, t: nat)
    requires IsGood(s) && |frames| == s.active + 1 && 1 <= t <= |frames|
    ensures s.Table() && |Tokens(s)| == s.active + 1 && Ticks(s, frames[..t]).Table()
    ensures Current(Ticks(s, frames[..t])) == Tokens(s)[t - 1]
  {
    hide Current, Ticks, Tokens, IsGood;
    RoundRobin(s, frames[..t]);
    ModUnique(t - 1, s.active + 1, 0, t - 1);
  }

  /** One of the first n ticks dispatches process p. */
  ghost predicate DispatchedWithin(s: State, frames: seq<Frame>, n: nat, p: nat)
    requires IsGood(s)
  {
    exists t: nat :: 1 <= t <= n && t <= |frames| && DispatchedAt(s, frames, t, p)
  }

  ghost predicate DispatchedAt(s: State, frames: seq<Frame>, t: nat, p: nat)
    requires IsGood(s) && t <= |frames|
  {
    var u := Ticks(s, frames[..t]);
    u.Table() && Current(u) == p
  }

  lemma DispatchedFirst(s: State, frames: seq<Frame>, t: nat, p: nat)
    requires IsGood(s) && |frames| == s.active + 1 && 1 <= t <= |frames|
    ensures s.Table() && |Tokens(s)| == s.active + 1
    ensures DispatchedAt(s, frames, t, p) <==> Tokens(s)[t - 1] == p
  {
    hide Current, Ticks, Tokens, IsGood;
    FirstRound(s, frames, t);
  }

  /**
    With N processes, the next N ticks dispatch every process except one that is running now,
    unless that is the boot process, which waits as well; tick N + 1 dispatches the running one again.
   */
  lemma WithinRound(s: State, frames: seq<Frame>, p: nat)
    requires IsGood(s) && |frames| == s.active + 1 && p < s.active
    ensures s.Table() && (DispatchedWithin(s, frames, s.active, p) <==> (p != Current(s) || p == 0))
    ensures DispatchedAt(s, frames, s.active + 1, Current(s))
  {
    hide Good, Current, Ticks, Tokens, IsGood, DispatchedAt;
    var k := SomeGood(s);
    var n := s.active;
    GoodTokens(s, k);
    DispatchedFirst(s, frames, n + 1, Current(s));
    if p != Current(s) || p == 0 {
      var i := QueuedAt(s, k, p);
      assert Tokens(s)[..n][i] == p;
      DispatchedFirst(s, frames, i + 1, p);
    } else {
      NotQueued(s, k, p);
      forall t: nat | 1 <= t <= n
        ensures !DispatchedAt(s, frames, t, p)
      {
        DispatchedFirst(s, frames, t, p);
        assert Tokens(s)[..n][t - 1] in s.queue;
      }
    }
  }

  lemma NotQueued(s: State, k: nat, p: nat)
    requires Good(s, k) && p == Current(s) && p != 0
    ensures p !in s.queue
  {
    hide Current, Everyone;
    QueueCount(s, k, p);
    assert p in s.queue <==> p in multiset(s.queue);
  }

  lemma SomeGood(s: State) returns (k: nat)
    requires IsGood(s)
    ensures Good(s, k)
  {
    k :| Good(s, k);
  }

  /** Two processes and two ticks after set-up the second one runs, and neither of the next two ticks dispatches it. */
  lemma RunningWaits(boot: Event, spawn: Event, f: Frame, g: Frame, frames: seq<Frame>)
    requires boot.Spawn? && spawn.Spawn? && Spawns([spawn]) < PROCESS_COUNT_MAX && |frames| == 3
    ensures var s := Ticks(Run(boot, [spawn]), [f, g]);
      s.Table() && s.active == 2 && Current(s) == 1 && !DispatchedWithin(s, frames, 2, 1)
  {
    hide Current, Ticks, Tokens, IsGood, DispatchedWithin, RotatedBy;
    var t := Run(boot, [spawn]);
    TwoProcesses(boot, spawn);
    RoundRobin(t, [f, g]);
    var s := Ticks(t, [f, g]);
    WithinRound(s, frames, 1);
  }

  lemma TwoProcesses(boot: Event, spawn: Event)
    requires boot.Spawn? && spawn.Spawn?
    ensures Spawns([spawn]) == 1
    ensures var t := Run(boot, [spawn]); t.active == 2 && t.Table() && Tokens(t) == [0, 1, 0]
  {
    OneSpawn(spawn);
    hide Current, Live, Good, Everyone, SpawnStep, BootState, Step, Spawns, Run;
    var b := BootState(boot.entry, boot.directory);
    GoodBoot(boot.entry, boot.directory);
    FirstStep(boot, spawn);
    StepSpawn(b, spawn, 0);
    SpawnCurrent(b, 0, spawn.entry, spawn.directory);
    BootTokens(boot, spawn);
  }

  lemma OneSpawn(spawn: Event)
    requires spawn.Spawn?
    ensures Spawns([spawn]) == 1
  {
    assert [spawn][..0] == [] && Spawns([]) == 0;
  }

  lemma FirstStep(boot: Event, spawn: Event)
    requires boot.Spawn? && spawn.Spawn? && Spawns([spawn]) == 1
    ensures var b := BootState(boot.entry, boot.directory);
      IsGood(b) && b.active == 1 && Run(boot, [spawn]) == Step(b, spawn)
  {
    hide Good, Step, BootState;
    GoodBoot(boot.entry, boot.directory);
    assert [spawn][..0] == [];
    assert Run(boot, []) == BootState(boot.entry, boot.directory);
  }

  lemma BootTokens(boot: Event, spawn: Event)
    requires boot.Spawn? && spawn.Spawn?
    ensures var b := BootState(boot.entry, boot.directory);
      Current(b) == 0 && SpawnStep(b, 1, spawn.entry, spawn.directory).queue == [0, 1]
  {
    CurrentIs(BootState(boot.entry, boot.directory), 0);
  }
}
