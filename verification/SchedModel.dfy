/** The scheduler as a state machine over values (kernel/src/sched/task.rs).

    `Sched` is everything the scheduler lock protects, plus the timer tick counter, the kernel stack
    pool, and two bookkeeping fields of the model: how many tasks were ever spawned and which were
    freed. Class `Scheduler` (Scheduler.dfy) updates the same fields in place and is proved to take
    exactly these steps. */
module SchedModel {
  import opened Options
  import opened SchedClasses
  import opened KernelStacks

  /** `id` is the task's identity (the heap address of its box); `slot` is its kernel stack. */
  datatype Task = Task(id: nat, slot: nat, cls: SchedClass, readySince: nat, promoted: bool, ticksUsed: nat)

  datatype Sched = Sched(
    now: nat,
    queues: seq<seq<Task>>,
    current: Option<Task>,
    zombie: Option<Task>,
    stats: seq<ClassStats>,
    lastPromotion: nat,
    pool: StackPool,
    halted: bool,
    spawned: nat,
    reaped: seq<nat>)

  predicate Shape(s: Sched) {
    |s.queues| == CLASSES && |s.stats| == CLASSES
  }

  const INITIAL: Sched := Sched(
    0, [[], [], []], None, None,
    [ClassStats(0, 0, 0), ClassStats(0, 0, 0), ClassStats(0, 0, 0)],
    0, StackPool(0, []), false, 0, [])

  // --- Choosing the next task -----------------------------------------------------------------

  predicate Waited(t: Task, now: nat) {
    SatSub(now, t.readySince) >= STARVATION_LIMIT_TICKS
  }

  /** The test the code makes: only the front of the queue is looked at. */
  predicate FrontStarving(q: seq<Task>, now: nat) {
    |q| > 0 && Waited(q[0], now)
  }

  predicate RescueAllowed(s: Sched) {
    SatSub(s.now, s.lastPromotion) >= PROMOTION_INTERVAL_TICKS
  }

  predicate StarvingClass(s: Sched, c: nat)
    requires Shape(s)
  {
    c < CLASSES && FrontStarving(s.queues[c], s.now)
  }

  predicate ReadyClass(s: Sched, c: nat)
    requires Shape(s)
  {
    c < CLASSES && s.queues[c] != []
  }

  predicate AnyStarving(s: Sched)
    requires Shape(s)
  {
    exists c: nat | c < CLASSES :: StarvingClass(s, c)
  }

  predicate HigherWaiting(s: Sched, c: nat)
    requires Shape(s)
  {
    exists d: nat | c < d < CLASSES :: ReadyClass(s, d)
  }

  datatype Choice = Nothing | Take(cls: nat, promoted: bool)

  /** The choice as a relation, with no order of evaluation: a rescue takes the front of the lowest
      starving class; otherwise the highest non-empty class goes first. */
  ghost predicate IsChoice(s: Sched, ch: Choice)
    requires Shape(s)
  {
    if RescueAllowed(s) && AnyStarving(s) then
      && ch.Take?
      && StarvingClass(s, ch.cls)
      && (forall d: nat :: d < ch.cls ==> !StarvingClass(s, d))
      && (ch.promoted <==> HigherWaiting(s, ch.cls))
    else if exists c: nat | c < CLASSES :: ReadyClass(s, c) then
      && ch.Take?
      && ReadyClass(s, ch.cls)
      && !HigherWaiting(s, ch.cls)
      && !ch.promoted
    else
      ch == Nothing
  }

  function LowestStarving(s: Sched): nat
    requires Shape(s)
  {
    if StarvingClass(s, 0) then 0 else if StarvingClass(s, 1) then 1 else if StarvingClass(s, 2) then 2 else CLASSES
  }

  function Choose(s: Sched): (ch: Choice)
    requires Shape(s)
    ensures ch.Take? ==> ReadyClass(s, ch.cls)
  {
    if RescueAllowed(s) && LowestStarving(s) < CLASSES then
      Take(LowestStarving(s), HigherWaiting(s, LowestStarving(s)))
    else
      if ReadyClass(s, 2) then Take(2, false)
      else if ReadyClass(s, 1) then Take(1, false)
      else if ReadyClass(s, 0) then Take(0, false)
      else Nothing
  }

  /** `Choose` is the one choice the policy allows. */
  lemma ChooseIsTheChoice(s: Sched, ch: Choice)
    requires Shape(s)
    ensures IsChoice(s, ch) <==> ch == Choose(s)
  {
    var low := LowestStarving(s);
    if low < CLASSES {
      assert StarvingClass(s, low);
    }
    if ReadyClass(s, 0) || ReadyClass(s, 1) || ReadyClass(s, 2) {
      assert exists c: nat | c < CLASSES :: ReadyClass(s, c);
    }
  }

  /** `pick_next`: what is removed from its queue, and whether a promotion is recorded. */
  function AfterPick(s: Sched, ch: Choice): (r: Sched)
    requires Shape(s)
    requires ch.Take? ==> ReadyClass(s, ch.cls)
    ensures Shape(r)
  {
    match ch
    case Nothing => s
    case Take(c, promoted) =>
      s.(queues := s.queues[c := s.queues[c][1..]],
         lastPromotion := if promoted then s.now else s.lastPromotion)
  }

  /** `enqueue`. */
  function Enqueue(s: Sched, t: Task): (r: Sched)
    requires Shape(s)
    ensures Shape(r)
  {
    var c := t.cls.Rank();
    s.(queues := s.queues[c := s.queues[c] + [t.(readySince := s.now, promoted := false)]])
  }

  /** `record_dispatch` followed by making the task current. */
  function Dispatch(s: Sched, t: Task, promoted: bool): (r: Sched)
    requires Shape(s)
    ensures Shape(r)
  {
    var c := t.cls.Rank();
    var waited := SatSub(s.now, t.readySince);
    var was := s.stats[c];
    s.(current := Some(t.(promoted := promoted, ticksUsed := 0)),
       stats := s.stats[c := ClassStats(
                          was.dispatches + 1,
                          if waited > was.maxWaitTicks then waited else was.maxWaitTicks,
                          was.promotions + if promoted then 1 else 0)])
  }

  /** The shared part of `exit_task` and `run_until_idle`: run whatever is chosen, if anything. */
  function RunNext(s: Sched): (r: Sched)
    requires Shape(s)
    ensures Shape(r)
  {
    var ch := Choose(s);
    match ch
    case Nothing => s
    case Take(c, promoted) => Dispatch(AfterPick(s, ch), s.queues[c][0], promoted)
  }

  /** `should_preempt` for the running task, whose `ticksUsed` already counts this tick. */
  predicate ShouldPreempt(s: Sched, t: Task)
    requires Shape(s)
  {
    HigherWaiting(s, t.cls.Rank())
    || (t.ticksUsed >= (if t.promoted then 1 else t.cls.QuantumTicks())
        && (s.queues[t.cls.Rank()] != [] || AnyStarving(s)))
  }

  datatype SwitchKind = Voluntary | VoluntaryFromUser | Preemptive

  /** `plan_switch`. With no current task the chosen one goes back to the front of its queue, but
      a promotion time recorded by `pick_next` stays recorded; a kernel task yielding in that state
      is a panic. */
  function PlanSwitch(s: Sched, kind: SwitchKind): (r: Sched)
    requires Shape(s)
    ensures Shape(r)
  {
    var ch := Choose(s);
    match ch
    case Nothing => s
    case Take(c, promoted) =>
      var next := s.queues[c][0];
      var picked := AfterPick(s, ch);
      if s.current.None? then
        var d := next.cls.Rank();
        picked.(queues := picked.queues[d := [next] + picked.queues[d]], halted := kind.Voluntary?)
      else
        var out := s.current.value.(ticksUsed := 0);
        Enqueue(Dispatch(picked, next, promoted), out)
  }

  // --- Steps -----------------------------------------------------------------------------------

  datatype Step =
    | Tick(ring3: bool)
    | Yield(fromUser: bool)
    | Spawn(cls: SchedClass, framesLeft: bool)
    | Exit
    | SetClass(cls: SchedClass)
    | RunUntilIdle
    | ReapZombie

  /** `preempt`, called from the timer interrupt. */
  function Preempt(s: Sched): (r: Sched)
    requires Shape(s)
    ensures Shape(r)
  {
    if s.current.None? then
      PlanSwitch(s, Preemptive)
    else
      var t := s.current.value.(ticksUsed := s.current.value.ticksUsed + 1);
      var counted := s.(current := Some(t));
      if ShouldPreempt(counted, t) then PlanSwitch(counted, Preemptive) else counted
  }

  /** The timer interrupt: count the tick, then preempt unless a Ring 3 program was interrupted
      while no task is current. */
  function TickStep(s: Sched, ring3: bool): (r: Sched)
    requires Shape(s)
    ensures Shape(r)
  {
    var ticked := s.(now := s.now + 1);
    if !ring3 || s.current.Some? then Preempt(ticked) else ticked
  }

  /** Task creation: claim a kernel stack (panicking if there is none), then enqueue. */
  function SpawnStep(s: Sched, cls: SchedClass, framesLeft: bool): (r: Sched)
    requires Shape(s)
    ensures Shape(r)
  {
    var (pool, slot) := Allocate(s.pool, framesLeft);
    match slot
    case None => s.(pool := pool, halted := true)
    case Some(k) =>
      Enqueue(s.(pool := pool, spawned := s.spawned + 1), Task(s.spawned, k, cls, 0, false, 0))
  }

  /** Dropping a task gives its stack slot back. */
  function Drop(s: Sched, t: Option<Task>): (r: Sched)
    requires Shape(s)
    ensures Shape(r)
  {
    match t
    case None => s
    case Some(t) => s.(pool := Release(s.pool, t.slot), reaped := s.reaped + [t.id])
  }

  /** `exit_task`: the running task becomes the zombie, the previous zombie is freed. */
  function ExitStep(s: Sched): (r: Sched)
    requires Shape(s)
    ensures Shape(r)
  {
    if s.current.None? then s.(halted := true)
    else Drop(RunNext(s.(current := None, zombie := s.current)), s.zombie)
  }

  function SetClassStep(s: Sched, cls: SchedClass): (r: Sched)
    requires Shape(s)
    ensures Shape(r)
  {
    match s.current
    case None => s
    case Some(t) => s.(current := Some(t.(cls := cls)))
  }

  function Apply(s: Sched, step: Step): (r: Sched)
    requires Shape(s)
    ensures Shape(r)
  {
    match step
    case Tick(ring3) => TickStep(s, ring3)
    case Yield(fromUser) => PlanSwitch(s, if fromUser then VoluntaryFromUser else Voluntary)
    case Spawn(cls, framesLeft) => SpawnStep(s, cls, framesLeft)
    case Exit => ExitStep(s)
    case SetClass(cls) => SetClassStep(s, cls)
    case RunUntilIdle => RunNext(s)
    case ReapZombie => Drop(s.(zombie := None), s.zombie)
  }

  /** Which steps the kernel can take: none after a panic, and the two boot-context steps only
      while no task is running. */
  predicate Enabled(s: Sched, step: Step) {
    !s.halted && ((step.RunUntilIdle? || step.ReapZombie?) ==> s.current.None?)
  }

  // --- Runs ------------------------------------------------------------------------------------

  function After(s: Sched, steps: seq<Step>): (r: Sched)
    requires Shape(s)
    ensures Shape(r)
  {
    if steps == [] then s else Apply(After(s, steps[..|steps| - 1]), steps[|steps| - 1])
  }

  predicate Legal(s: Sched, steps: seq<Step>)
    requires Shape(s)
  {
    steps != [] ==>
      var before := steps[..|steps| - 1];
      Legal(s, before) && Enabled(After(s, before), steps[|steps| - 1])
  }

  lemma {:induction false} PrefixLegal(s: Sched, steps: seq<Step>, n: nat)
    requires Shape(s) && Legal(s, steps) && n <= |steps|
    ensures Legal(s, steps[..n])
  {
    if n == |steps| {
      assert steps[..n] == steps;
    } else {
      PrefixLegal(s, steps[..|steps| - 1], n);
      assert steps[..|steps| - 1][..n] == steps[..n];
    }
  }

  /** One more step at the end of a prefix. */
  lemma PrefixStep(s: Sched, steps: seq<Step>, n: nat)
    requires Shape(s) && Legal(s, steps) && n < |steps|
    ensures Legal(s, steps[..n])
    ensures Enabled(After(s, steps[..n]), steps[n])
    ensures After(s, steps[..n + 1]) == Apply(After(s, steps[..n]), steps[n])
  {
    PrefixLegal(s, steps, n + 1);
    assert steps[..n + 1][..n] == steps[..n];
    assert Legal(s, steps[..n + 1]);
  }
}
