/** The half-second promise of kernel/src/sched/class.rs, and exactly when it can be kept.

    The prose says that no ready task waits more than half a second (50 ticks). Rescue goes lowest
    class first, so background tasks can absorb every rescue while a normal task waits. Seven queued
    background tasks cannot (`SchedNormalWait`); eight can, for ever. */
module SchedStarvation {
  import opened Options
  import opened SchedClasses
  import opened KernelStacks
  import opened SchedModel
  import opened SchedInvariants
  import opened SchedBounds
  import opened SchedNormalWait

  function Repeat(step: Step, n: nat): seq<Step> {
    seq(n, i => step)
  }

  lemma AfterConcat(s: Sched, a: seq<Step>, b: seq<Step>)
    requires Shape(s) && Legal(s, a) && Legal(After(s, a), b)
    ensures Legal(s, a + b) && After(s, a + b) == After(After(s, a), b)
  {
    if b == [] {
      assert a + b == a;
    } else {
      var init := b[..|b| - 1];
      AfterConcat(s, a, init);
      assert (a + b)[..|a + b| - 1] == a + init;
    }
  }

  lemma AfterOne(s: Sched, step: Step)
    requires Shape(s) && Enabled(s, step)
    ensures Legal(s, [step]) && After(s, [step]) == Apply(s, step)
  {
    assert [step][..0] == [];
    assert After(s, []) == s;
  }

  // --- Boot: spawn everything at tick 0 -------------------------------------------------------

  /** Before the first dispatch: so many tasks of each class spawned, at tick 0. */
  predicate Booting(s: Sched, background: nat, normal: nat, realtime: nat) {
    && QueuesOk(s) && !s.halted && s.now == 0 && s.lastPromotion == 0 && s.current.None? && s.zombie.None?
    && s.pool == StackPool(background + normal + realtime, [])
    && |s.queues[0]| == background && |s.queues[1]| == normal && |s.queues[2]| == realtime
  }

  lemma BootStart()
    ensures Booting(INITIAL, 0, 0, 0)
  {
  }

  lemma SpawnOne(s: Sched, cls: SchedClass, b: nat, n: nat, r: nat)
    requires Booting(s, b, n, r) && b + n + r < KERNEL_STACK_SLOTS
    ensures Enabled(s, Spawn(cls, true))
    ensures
      var u := Apply(s, Spawn(cls, true));
      match cls
      case Background => Booting(u, b + 1, n, r) && u.queues[1] == s.queues[1]
      case Normal => Booting(u, b, n + 1, r)
      case Realtime => Booting(u, b, n, r + 1) && u.queues[1] == s.queues[1]
  {
    ApplyKeepsQueues(s, Spawn(cls, true));
  }

  lemma {:induction false} SpawnMany(s: Sched, cls: SchedClass, k: nat, b: nat, n: nat, r: nat)
    requires Booting(s, b, n, r) && b + n + r + k <= KERNEL_STACK_SLOTS && !cls.Normal?
    ensures Legal(s, Repeat(Spawn(cls, true), k))
    ensures
      var u := After(s, Repeat(Spawn(cls, true), k));
      && u.queues[1] == s.queues[1]
      && Booting(u, if cls.Background? then b + k else b, n, if cls.Realtime? then r + k else r)
  {
    hide Apply, QueueOk, Enabled;
    if k > 0 {
      var steps := Repeat(Spawn(cls, true), k);
      SpawnMany(s, cls, k - 1, b, n, r);
      assert steps[..k - 1] == Repeat(Spawn(cls, true), k - 1);
      var u := After(s, Repeat(Spawn(cls, true), k - 1));
      SpawnOne(u, cls, if cls.Background? then b + k - 1 else b, n, if cls.Realtime? then r + k - 1 else r);
    }
  }

  lemma FrontsOldest(s: Sched)
    requires QueuesOk(s)
    ensures forall c: nat | c < CLASSES && s.queues[c] != [] ::
              s.queues[c][0].cls.Rank() == c && s.queues[c][0].readySince <= s.now
  {
    forall c: nat | c < CLASSES && s.queues[c] != []
      ensures s.queues[c][0].cls.Rank() == c && s.queues[c][0].readySince <= s.now
    {
      assert QueueOk(s.queues[c], c, s.now);
    }
  }

  // --- Runs in which the victim only waits ----------------------------------------------------------

  /** The victim waits alone in its queue, and at most eight background tasks are queued. */
  predicate Waits(s: Sched, victim: Task) {
    && Shape(s) && |s.queues[BACKGROUND]| <= 8 && s.queues[NORMAL] == [victim]
    && s.current.Some? && s.current.value.id != victim.id
  }

  /** The steps lead from `s` to `r`, and the victim waits all the way. */
  ghost predicate Leads(s: Sched, steps: seq<Step>, r: Sched, victim: Task) {
    && Shape(s) && Legal(s, steps) && After(s, steps) == r
    && forall n: nat | n <= |steps| :: Waits(After(s, steps[..n]), victim)
  }

  lemma LeadsNowhere(s: Sched, victim: Task)
    requires Waits(s, victim)
    ensures Leads(s, [], s, victim)
  {
  }

  lemma LeadsOn(s: Sched, steps: seq<Step>, u: Sched, step: Step, victim: Task)
    requires Leads(s, steps, u, victim) && Enabled(u, step) && Waits(Apply(u, step), victim)
    ensures Leads(s, steps + [step], Apply(u, step), victim)
  {
    hide Apply, Waits, Enabled;
    var longer := steps + [step];
    assert longer[..|longer| - 1] == steps;
    forall n: nat | n <= |longer| ensures Waits(After(s, longer[..n]), victim) {
      if n <= |steps| {
        assert longer[..n] == steps[..n];
      } else {
        assert longer[..n] == longer;
      }
    }
  }

  // --- Eight background tasks -----------------------------------------------------------------------

  /** Nobody else is the victim, and everybody yet to be spawned will be somebody else too. */
  predicate NoTwin(s: Sched, victim: Task)
    requires Shape(s)
  {
    && victim.id < s.spawned
    && (s.current.Some? ==> s.current.value.id != victim.id)
    && (forall i | 0 <= i < |s.queues[BACKGROUND]| :: s.queues[BACKGROUND][i].id != victim.id)
    && (forall i | 0 <= i < |s.queues[REALTIME]| :: s.queues[REALTIME][i].id != victim.id)
  }

  /** Ten lasting tasks, `extra` short-lived ones and perhaps a zombie hold all slots not free. */
  predicate SlotsLeft(s: Sched, extra: nat) {
    s.pool.nextSlot <= 10 + extra + |s.pool.free| + if s.zombie.Some? then 1 else 0
  }

  /** The i-th background task will have waited long enough by the i-th rescue from now, when rescues
      come every seven ticks. */
  predicate Ripe(s: Sched)
    requires Shape(s)
  {
    forall i | 0 <= i < |s.queues[BACKGROUND]| ::
      s.queues[BACKGROUND][i].readySince + STARVATION_LIMIT_TICKS <= s.lastPromotion + 7 * (i + 1)
  }

  /** `since` ticks after a rescue: the running task's class and ticks, and the realtime tasks queued. */
  predicate Phase(s: Sched, victim: Task, since: nat, cls: SchedClass, used: nat, realtime: nat, extra: nat) {
    && QueuesOk(s) && !s.halted && s.current.Some? && s.current.value.cls == cls && s.current.value.ticksUsed == used
    && (s.current.value.promoted ==> cls.Background?)
    && s.queues[NORMAL] == [victim] && |s.queues[BACKGROUND]| == (if cls.Background? then 7 else 8)
    && |s.queues[REALTIME]| == realtime && s.now == s.lastPromotion + since
    && Ripe(s) && NoTwin(s, victim) && SlotsLeft(s, extra)
  }

  lemma PhaseWaits(s: Sched, victim: Task, since: nat, cls: SchedClass, used: nat, realtime: nat, extra: nat)
    requires Phase(s, victim, since, cls, used, realtime, extra)
    ensures Waits(s, victim) && !s.halted
  {
  }

  /** A tick with a realtime task queued, too early for a rescue. */
  lemma TickToRealtime(s: Sched, victim: Task, since: nat, cls: SchedClass, used: nat, extra: nat)
    requires Phase(s, victim, since, cls, used, 1, extra) && since < 4 && !cls.Normal?
    requires cls.Background? ==> since == 0
    ensures Phase(Apply(s, Tick(false)), victim, since + 1, Realtime, 0, if cls.Background? then 0 else 1, extra)
    ensures Apply(s, Tick(false)).now == s.now + 1
  {
    hide QueueOk;
    ApplyKeepsQueues(s, Tick(false));
    ApplyKeepsClock(s);
    PreemptIs(s, false);
    var ticked := s.(now := s.now + 1, current := Some(s.current.value.(ticksUsed := s.current.value.ticksUsed + 1)));
    RealtimeAlwaysPreempts(ticked);
    FrontsOldest(ticked);
    assert ReadyClass(ticked, REALTIME);
    assert Choose(ticked) == Take(REALTIME, false);
  }

  /** A running task that has turned normal keeps the CPU for a quantum. */
  lemma TickStays(s: Sched, victim: Task, since: nat, used: nat)
    requires Phase(s, victim, since, Normal, used, 0, 0) && used < 2
    ensures Phase(Apply(s, Tick(false)), victim, since + 1, Normal, used + 1, 0, 0)
    ensures Apply(s, Tick(false)).now == s.now + 1
  {
    hide QueueOk;
    ApplyKeepsQueues(s, Tick(false));
    PreemptIs(s, false);
  }

  /** Seven ticks after the last rescue the next one goes to a background task again. */
  lemma TickRescues(s: Sched, victim: Task)
    requires Phase(s, victim, 6, Realtime, 2, 0, 0)
    ensures Phase(Apply(s, Tick(false)), victim, 0, Background, 0, 1, 0)
    ensures Apply(s, Tick(false)).now == s.now + 1
  {
    hide QueueOk;
    ApplyKeepsQueues(s, Tick(false));
    ApplyKeepsClock(s);
    PreemptIs(s, false);
    var ticked := s.(now := s.now + 1, current := Some(s.current.value.(ticksUsed := s.current.value.ticksUsed + 1)));
    FrontsOldest(ticked);
    assert StarvingClass(ticked, BACKGROUND);
    assert ReadyClass(ticked, NORMAL);
    assert Choose(ticked) == Take(BACKGROUND, true);
  }

  lemma SpawnHelper(s: Sched, victim: Task)
    requires Phase(s, victim, 1, Realtime, 0, 0, 0)
    ensures Phase(Apply(s, Spawn(Realtime, true)), victim, 1, Realtime, 0, 1, 1)
    ensures Apply(s, Spawn(Realtime, true)).now == s.now
  {
    hide QueueOk;
    ApplyKeepsQueues(s, Spawn(Realtime, true));
  }

  /** The helper exits and the lasting realtime task gets a fresh start, with no other queued. */
  lemma HelperExits(s: Sched, victim: Task)
    requires Phase(s, victim, 4, Realtime, 0, 1, 1)
    ensures Phase(Apply(s, Exit), victim, 4, Realtime, 0, 0, 0)
    ensures Apply(s, Exit).now == s.now
  {
    hide QueueOk;
    ApplyKeepsQueues(s, Exit);
    var parked := s.(current := None, zombie := s.current);
    FrontsOldest(s);
    assert ReadyClass(parked, REALTIME);
    assert Choose(parked) == Take(REALTIME, false);
  }

  lemma Changes(s: Sched, victim: Task, since: nat, cls: SchedClass, used: nat, to: SchedClass)
    requires Phase(s, victim, since, cls, used, 0, 0) && !cls.Background? && !to.Background?
    ensures Phase(Apply(s, SetClass(to)), victim, since, to, used, 0, 0)
    ensures Apply(s, SetClass(to)).now == s.now
  {
    hide QueueOk;
    ApplyKeepsQueues(s, SetClass(to));
  }

  /** One period of the run: from a rescue to the next, seven ticks later. */
  lemma Cycle(s: Sched, steps: seq<Step>, u: Sched, victim: Task) returns (longer: seq<Step>, r: Sched)
    requires Leads(s, steps, u, victim) && Phase(u, victim, 0, Background, 0, 1, 0)
    ensures Leads(s, longer, r, victim) && Phase(r, victim, 0, Background, 0, 1, 0) && r.now == u.now + 7
  {
    hide Leads, Phase, Apply;
    longer, r := steps, u;
    PhaseWaits(u, victim, 0, Background, 0, 1, 0);
    TickToRealtime(r, victim, 0, Background, 0, 0);
    longer, r := Onward(s, longer, r, Tick(false), victim, 1, Realtime, 0, 0, 0);
    SpawnHelper(r, victim);
    longer, r := Onward(s, longer, r, Spawn(Realtime, true), victim, 1, Realtime, 0, 1, 1);
    TickToRealtime(r, victim, 1, Realtime, 0, 1);
    longer, r := Onward(s, longer, r, Tick(false), victim, 2, Realtime, 0, 1, 1);
    TickToRealtime(r, victim, 2, Realtime, 0, 1);
    longer, r := Onward(s, longer, r, Tick(false), victim, 3, Realtime, 0, 1, 1);
    TickToRealtime(r, victim, 3, Realtime, 0, 1);
    longer, r := Onward(s, longer, r, Tick(false), victim, 4, Realtime, 0, 1, 1);
    HelperExits(r, victim);
    longer, r := Onward(s, longer, r, Exit, victim, 4, Realtime, 0, 0, 0);
    Changes(r, victim, 4, Realtime, 0, Normal);
    longer, r := Onward(s, longer, r, SetClass(Normal), victim, 4, Normal, 0, 0, 0);
    TickStays(r, victim, 4, 0);
    longer, r := Onward(s, longer, r, Tick(false), victim, 5, Normal, 1, 0, 0);
    TickStays(r, victim, 5, 1);
    longer, r := Onward(s, longer, r, Tick(false), victim, 6, Normal, 2, 0, 0);
    Changes(r, victim, 6, Normal, 2, Realtime);
    longer, r := Onward(s, longer, r, SetClass(Realtime), victim, 6, Realtime, 2, 0, 0);
    TickRescues(r, victim);
    longer, r := Onward(s, longer, r, Tick(false), victim, 0, Background, 0, 1, 0);
  }

  lemma Onward(s: Sched, steps: seq<Step>, u: Sched, step: Step, victim: Task,
               since: nat, cls: SchedClass, used: nat, realtime: nat, extra: nat) returns (longer: seq<Step>, r: Sched)
    requires Leads(s, steps, u, victim) && Shape(u) && !u.halted && !step.RunUntilIdle? && !step.ReapZombie?
    requires Phase(Apply(u, step), victim, since, cls, used, realtime, extra)
    ensures longer == steps + [step] && r == Apply(u, step) && Leads(s, longer, r, victim) && Shape(r) && !r.halted
  {
    hide Leads, Apply, QueuesOk;
    longer, r := steps + [step], Apply(u, step);
    PhaseWaits(r, victim, since, cls, used, realtime, extra);
    LeadsOn(s, steps, u, step, victim);
  }

  // --- Getting there --------------------------------------------------------------------------------

  /** One realtime task runs, and nobody has waited 50 ticks yet. */
  predicate Warming(s: Sched, victim: Task) {
    && QueuesOk(s) && !s.halted && s.now < STARVATION_LIMIT_TICKS && s.lastPromotion == 0
    && s.current.Some? && s.current.value.cls.Realtime?
    && |s.queues[BACKGROUND]| == 8 && s.queues[NORMAL] == [victim] && s.queues[REALTIME] == []
    && (forall i | 0 <= i < 8 :: s.queues[BACKGROUND][i].readySince == 0)
    && NoTwin(s, victim) && SlotsLeft(s, 0) && victim.readySince == 0
  }

  lemma WarmingTick(s: Sched, victim: Task)
    requires Warming(s, victim)
    ensures
      var r := Apply(s, Tick(false));
      && r.now == s.now + 1
      && (if r.now < STARVATION_LIMIT_TICKS then Warming(r, victim) else Phase(r, victim, 0, Background, 0, 1, 0))
  {
    hide QueueOk;
    ApplyKeepsQueues(s, Tick(false));
    ApplyKeepsClock(s);
    PreemptIs(s, false);
    var ticked := s.(now := s.now + 1, current := Some(s.current.value.(ticksUsed := s.current.value.ticksUsed + 1)));
    FrontsOldest(ticked);
    if ticked.now == STARVATION_LIMIT_TICKS {
      assert StarvingClass(ticked, BACKGROUND);
      assert ReadyClass(ticked, NORMAL);
      assert Choose(ticked) == Take(BACKGROUND, true);
    }
  }

  lemma {:induction false} WarmUp(s: Sched, victim: Task, n: nat) returns (steps: seq<Step>, r: Sched)
    requires Warming(s, victim) && s.now == 0 && n < STARVATION_LIMIT_TICKS
    ensures Leads(s, steps, r, victim) && Warming(r, victim) && r.now == n
  {
    hide Apply, Leads, QueueOk;
    if n == 0 {
      LeadsNowhere(s, victim);
      return [], s;
    }
    var before, u := WarmUp(s, victim, n - 1);
    WarmingTick(u, victim);
    LeadsOn(s, before, u, Tick(false), victim);
    return before + [Tick(false)], Apply(u, Tick(false));
  }

  lemma {:induction false} Cycles(s: Sched, victim: Task, n: nat) returns (steps: seq<Step>, r: Sched)
    requires Warming(s, victim) && s.now == 0
    ensures Leads(s, steps, r, victim) && Phase(r, victim, 0, Background, 0, 1, 0) && r.now == 50 + 7 * n
  {
    hide Apply, Leads, QueueOk, Phase;
    if n == 0 {
      var before, u := WarmUp(s, victim, STARVATION_LIMIT_TICKS - 1);
      WarmingTick(u, victim);
      steps, r := Onward(s, before, u, Tick(false), victim, 0, Background, 0, 1, 0);
    } else {
      var before, u := Cycles(s, victim, n - 1);
      steps, r := Cycle(s, before, u, victim);
    }
  }

  function EightSetup(): seq<Step> {
    [Spawn(Normal, true)] + Repeat(Spawn(Realtime, true), 1) + Repeat(Spawn(Background, true), 8) + [RunUntilIdle]
  }

  lemma BootThenRun(s: Sched)
    requires Booting(s, 8, 1, 1)
    ensures Enabled(s, RunUntilIdle)
    ensures
      var r := Apply(s, RunUntilIdle);
      && QueuesOk(r) && !r.halted && r.now == 0 && r.lastPromotion == 0 && r.zombie.None?
      && r.current.Some? && r.current.value.cls.Realtime?
      && |r.queues[BACKGROUND]| == 8 && r.queues[NORMAL] == s.queues[NORMAL] && r.queues[REALTIME] == []
      && r.pool == StackPool(10, [])
  {
    ApplyKeepsQueues(s, RunUntilIdle);
    FrontsOldest(s);
    hide QueueOk;
    assert ReadyClass(s, 2);
  }

  lemma {:induction false} NotCounted(q: seq<Task>, x: nat, i: nat)
    requires Count(q, Id, x) == 0 && i < |q|
    ensures q[i].id != x
    decreases |q|
  {
    if i > 0 {
      NotCounted(q[1..], x, i - 1);
    }
  }

  lemma OnlyVictim(s: Sched, victim: Task)
    requires TasksConserved(s) && s.queues[NORMAL] == [victim]
    ensures NoTwin(s, victim)
  {
    var x := victim.id;
    assert Count([victim], Id, x) == 1 + Count([victim][1..], Id, x);
    assert Live(s, Id, x) + Occurrences(s.reaped, x) == if x < s.spawned then 1 else 0;
    forall i | 0 <= i < |s.queues[BACKGROUND]| ensures s.queues[BACKGROUND][i].id != x {
      NotCounted(s.queues[BACKGROUND], x, i);
    }
    forall i | 0 <= i < |s.queues[REALTIME]| ensures s.queues[REALTIME][i].id != x {
      NotCounted(s.queues[REALTIME], x, i);
    }
  }

  /** A reachable state from which the victim can be kept waiting. */
  lemma EightBooted() returns (s: Sched, victim: Task)
    ensures Legal(INITIAL, EightSetup()) && s == After(INITIAL, EightSetup()) && Warming(s, victim) && s.now == 0
  {
    hide Apply, QueueOk, Enabled;
    var first := [Spawn(Normal, true)];
    BootStart();
    SpawnOne(INITIAL, Normal, 0, 0, 0);
    AfterOne(INITIAL, Spawn(Normal, true));
    var s1 := Apply(INITIAL, Spawn(Normal, true));
    var realtime := Repeat(Spawn(Realtime, true), 1);
    SpawnMany(s1, Realtime, 1, 0, 1, 0);
    AfterConcat(INITIAL, first, realtime);
    var s2 := After(s1, realtime);
    var background := Repeat(Spawn(Background, true), 8);
    SpawnMany(s2, Background, 8, 0, 1, 1);
    AfterConcat(INITIAL, first + realtime, background);
    var s3 := After(s2, background);
    BootThenRun(s3);
    AfterOne(s3, RunUntilIdle);
    AfterConcat(INITIAL, first + realtime + background, [RunUntilIdle]);
    s := Apply(s3, RunUntilIdle);
    assert EightSetup() == first + realtime + background + [RunUntilIdle];
    victim := s.queues[NORMAL][0];
    assert s.queues[NORMAL] == [victim];
    ReachableStates(EightSetup());
    OnlyVictim(s, victim);
    AllReadyAtZero(s);
  }

  lemma AllReadyAtZero(s: Sched)
    requires QueuesOk(s) && s.now == 0
    ensures forall c: nat, i: nat | c < CLASSES && i < |s.queues[c]| :: s.queues[c][i].readySince == 0
  {
    forall c: nat | c < CLASSES ensures QueueOk(s.queues[c], c, 0) {
    }
  }

  /** With eight background tasks queued at most, a normal task can wait for ever: for every `n`
      there is a run from a reachable state in which it is ready at the start and, `n` ticks later,
      has never had the CPU. */
  lemma NormalStarvesForever(n: nat) returns (s: Sched, steps: seq<Step>, victim: Task)
    ensures Legal(INITIAL, EightSetup()) && s == After(INITIAL, EightSetup())
    ensures Busy(s) && At(s, NORMAL, 0, victim) && s.now == victim.readySince
    ensures Legal(s, steps) && AtMostQueued(s, steps, 8) && After(s, steps).now >= s.now + n
    ensures forall deadline: nat :: !DispatchedBy(s, steps, victim, deadline)
  {
    hide QueueOk, Apply, Phase;
    s, victim := EightBooted();
    var r;
    steps, r := Cycles(s, victim, n);
    ReachableStates(EightSetup());
    assert forall m: nat | m <= |steps| :: !Running(After(s, steps[..m]), victim) by {
      forall m: nat | m <= |steps| ensures !Running(After(s, steps[..m]), victim) {
        assert Waits(After(s, steps[..m]), victim);
      }
    }
  }

  // --- Exactly seven --------------------------------------------------------------------------------

  /** Every normal task at the front of its queue runs within `bound` ticks of becoming ready, in every
      run in which at most `k` background tasks are queued at a time. */
  ghost predicate NormalBounded(k: nat, bound: nat) {
    forall s: Sched, steps: seq<Step>, t: Task |
      && Busy(s) && At(s, NORMAL, 0, t) && s.now == t.readySince
      && Legal(s, steps) && AtMostQueued(s, steps, k) && After(s, steps).now >= s.now + bound ::
      DispatchedBy(s, steps, t, s.now + bound)
  }

  /** A normal task's wait is bounded exactly when at most seven background tasks are queued. */
  lemma SevenIsExact(k: nat)
    ensures (exists bound: nat :: NormalBounded(k, bound)) <==> k <= 7
  {
    hide QueuesOk, RateLimited, Legal, AtMostQueued, DispatchedBy;
    if k <= 7 {
      var bound := 49 + 7 * (k + 1);
      forall s: Sched, steps: seq<Step>, t: Task |
        && Busy(s) && At(s, NORMAL, 0, t) && s.now == t.readySince
        && Legal(s, steps) && AtMostQueued(s, steps, k) && After(s, steps).now >= s.now + bound
        ensures DispatchedBy(s, steps, t, s.now + bound)
      {
        NormalWait(s, steps, 0, t, k, s.now + bound);
      }
      assert NormalBounded(k, bound);
    } else if bound: nat :| NormalBounded(k, bound) {
      var s, steps, t := NormalStarvesForever(bound);
      MoreQueued(s, steps, 8, k);
      BoundedThere(k, bound, s, steps, t);
    }
  }

  lemma BoundedThere(k: nat, bound: nat, s: Sched, steps: seq<Step>, t: Task)
    requires Busy(s) && At(s, NORMAL, 0, t) && s.now == t.readySince
    requires Legal(s, steps) && AtMostQueued(s, steps, k) && After(s, steps).now >= s.now + bound
    ensures NormalBounded(k, bound) ==> DispatchedBy(s, steps, t, s.now + bound)
  {
  }

  lemma MoreQueued(s: Sched, steps: seq<Step>, few: nat, many: nat)
    requires Shape(s) && AtMostQueued(s, steps, few) && few <= many
    ensures AtMostQueued(s, steps, many)
  {
  }
}
