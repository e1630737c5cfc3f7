/** What every step of the scheduler keeps, and hence what holds in every reachable state. */
module SchedInvariants {
  import opened Options
  import opened SchedClasses
  import opened KernelStacks
  import opened SchedModel

  // --- Queues: own class only, oldest first ------------------------------------------------------

  predicate QueueOk(q: seq<Task>, c: nat, now: nat) {
    && (forall i | 0 <= i < |q| :: q[i].cls.Rank() == c && q[i].readySince <= now)
    && (forall i, j | 0 <= i < j < |q| :: q[i].readySince <= q[j].readySince)
  }

  predicate QueuesOk(s: Sched) {
    Shape(s) && forall c: nat | c < CLASSES :: QueueOk(s.queues[c], c, s.now)
  }

  lemma PickKeepsQueues(s: Sched)
    requires QueuesOk(s)
    ensures QueuesOk(AfterPick(s, Choose(s)))
    ensures Choose(s).Take? ==> s.queues[Choose(s).cls][0].cls.Rank() == Choose(s).cls
  {
    var ch := Choose(s);
    if ch.Take? {
      assert QueueOk(s.queues[ch.cls], ch.cls, s.now);
    }
  }

  lemma EnqueueKeepsQueues(s: Sched, t: Task)
    requires QueuesOk(s)
    ensures QueuesOk(Enqueue(s, t))
  {
  }

  lemma PlanSwitchKeepsQueues(s: Sched, kind: SwitchKind)
    requires QueuesOk(s)
    ensures QueuesOk(PlanSwitch(s, kind))
  {
    PickKeepsQueues(s);
    var ch := Choose(s);
    if ch.Take? {
      var next := s.queues[ch.cls][0];
      if s.current.None? {
        var picked := AfterPick(s, ch);
        assert [next] + picked.queues[ch.cls] == s.queues[ch.cls];
      } else {
        EnqueueKeepsQueues(Dispatch(AfterPick(s, ch), next, ch.promoted), s.current.value.(ticksUsed := 0));
      }
    }
  }

  lemma PreemptKeepsQueues(s: Sched)
    requires QueuesOk(s)
    ensures QueuesOk(Preempt(s))
  {
    hide PlanSwitch, ShouldPreempt;
    if s.current.None? {
      PlanSwitchKeepsQueues(s, Preemptive);
    } else {
      var t := s.current.value.(ticksUsed := s.current.value.ticksUsed + 1);
      PlanSwitchKeepsQueues(s.(current := Some(t)), Preemptive);
    }
  }

  lemma RunNextKeepsQueues(s: Sched)
    requires QueuesOk(s)
    ensures QueuesOk(RunNext(s))
  {
    PickKeepsQueues(s);
  }

  lemma ApplyKeepsQueues(s: Sched, step: Step)
    requires QueuesOk(s)
    ensures QueuesOk(Apply(s, step))
  {
    hide PlanSwitch, Preempt, RunNext;
    match step
    case Tick(ring3) => PreemptKeepsQueues(s.(now := s.now + 1));
    case Yield(fromUser) => PlanSwitchKeepsQueues(s, if fromUser then VoluntaryFromUser else Voluntary);
    case Spawn(cls, framesLeft) =>
    case Exit => RunNextKeepsQueues(s.(current := None, zombie := s.current));
    case SetClass(cls) =>
    case RunUntilIdle => RunNextKeepsQueues(s);
    case ReapZombie =>
  }

  /** Because queues are oldest first, looking at the front alone finds every starving task. */
  lemma FrontTestIsExact(s: Sched, c: nat)
    requires QueuesOk(s) && c < CLASSES
    ensures StarvingClass(s, c) <==> exists i | 0 <= i < |s.queues[c]| :: Waited(s.queues[c][i], s.now)
  {
    var q := s.queues[c];
    assert QueueOk(q, c, s.now);
    forall i | 0 <= i < |q| && Waited(q[i], s.now)
      ensures Waited(q[0], s.now)
    {
      assert q[0].readySince <= q[i].readySince;
    }
  }

  // --- Conservation of tasks and stack slots --------------------------------------------------

  /** The two things about a task that no scheduling operation changes. */
  datatype Key = Id | Slot {
    function Of(t: Task): nat {
      if Id? then t.id else t.slot
    }
  }

  function Count(q: seq<Task>, key: Key, x: nat): nat {
    if q == [] then 0 else (if key.Of(q[0]) == x then 1 else 0) + Count(q[1..], key, x)
  }

  function CountOne(t: Option<Task>, key: Key, x: nat): nat {
    if t.Some? && key.Of(t.value) == x then 1 else 0
  }

  /** In how many places the kernel still holds a task whose key is `x`. */
  function Live(s: Sched, key: Key, x: nat): nat
    requires Shape(s)
  {
    Count(s.queues[0], key, x) + Count(s.queues[1], key, x) + Count(s.queues[2], key, x)
    + CountOne(s.current, key, x) + CountOne(s.zombie, key, x)
  }

  function Occurrences(xs: seq<nat>, x: nat): nat {
    multiset(xs)[x]
  }

  lemma {:induction false} CountSnoc(q: seq<Task>, t: Task, key: Key, x: nat)
    ensures Count(q + [t], key, x) == Count(q, key, x) + CountOne(Some(t), key, x)
  {
    if q == [] {
      assert q + [t] == [t];
    } else {
      CountSnoc(q[1..], t, key, x);
      assert (q + [t])[1..] == q[1..] + [t];
    }
  }

  lemma EnqueueAdds(s: Sched, t: Task, key: Key, x: nat)
    requires Shape(s)
    ensures Live(Enqueue(s, t), key, x) == Live(s, key, x) + CountOne(Some(t), key, x)
  {
    CountSnoc(s.queues[t.cls.Rank()], t.(readySince := s.now, promoted := false), key, x);
  }

  lemma PickRemoves(s: Sched, key: Key, x: nat)
    requires Shape(s) && Choose(s).Take?
    ensures
      var ch := Choose(s);
      Live(s, key, x) == Live(AfterPick(s, ch), key, x) + CountOne(Some(s.queues[ch.cls][0]), key, x)
  {
  }

  lemma RunNextConserves(s: Sched, key: Key, x: nat)
    requires Shape(s) && s.current.None?
    ensures Live(RunNext(s), key, x) == Live(s, key, x)
  {
    if Choose(s).Take? {
      PickRemoves(s, key, x);
    }
  }

  lemma PutBack(s: Sched)
    requires QueuesOk(s) && Choose(s).Take?
    ensures
      var next := s.queues[Choose(s).cls][0];
      var picked := AfterPick(s, Choose(s));
      picked.queues[next.cls.Rank() := [next] + picked.queues[next.cls.Rank()]] == s.queues
  {
    var c := Choose(s).cls;
    assert QueueOk(s.queues[c], c, s.now);
    assert [s.queues[c][0]] + s.queues[c][1..] == s.queues[c];
  }

  lemma PlanSwitchConserves(s: Sched, kind: SwitchKind, key: Key, x: nat)
    requires QueuesOk(s)
    ensures Live(PlanSwitch(s, kind), key, x) == Live(s, key, x)
  {
    hide QueueOk, HigherWaiting, LowestStarving, Count, RescueAllowed;
    var ch := Choose(s);
    if ch.Take? {
      if s.current.None? {
        PutBack(s);
      } else {
        PickRemoves(s, key, x);
        EnqueueAdds(Dispatch(AfterPick(s, ch), s.queues[ch.cls][0], ch.promoted),
                    s.current.value.(ticksUsed := 0), key, x);
      }
    }
  }

  lemma PreemptConserves(s: Sched, key: Key, x: nat)
    requires QueuesOk(s)
    ensures Live(Preempt(s), key, x) == Live(s, key, x)
  {
    hide PlanSwitch, ShouldPreempt, QueueOk;
    if s.current.None? {
      PlanSwitchConserves(s, Preemptive, key, x);
    } else {
      var t := s.current.value.(ticksUsed := s.current.value.ticksUsed + 1);
      PlanSwitchConserves(s.(current := Some(t)), Preemptive, key, x);
    }
  }

  /** Every spawned task is in exactly one place: a queue, running, the zombie slot, or freed. */
  ghost predicate TasksConserved(s: Sched) {
    Shape(s) && forall i: nat :: Live(s, Id, i) + Occurrences(s.reaped, i) == if i < s.spawned then 1 else 0
  }

  /** No slot is held twice, and a free slot belongs to no task the kernel still holds. */
  ghost predicate SlotsExclusive(s: Sched) {
    && Shape(s)
    && s.pool.nextSlot <= KERNEL_STACK_SLOTS
    && forall k: nat :: Live(s, Slot, k) + Occurrences(s.pool.free, k) <= if k < s.pool.nextSlot then 1 else 0
  }

  lemma AllocateMoves(pool: StackPool, framesLeft: bool, k: nat)
    requires Allocate(pool, framesLeft).1.Some?
    ensures
      var (after, slot) := Allocate(pool, framesLeft);
      && after.nextSlot == pool.nextSlot + (if pool.free == [] then 1 else 0)
      && Occurrences(pool.free, k) ==
         Occurrences(after.free, k) + (if pool.free != [] && slot.value == k then 1 else 0)
      && (pool.free == [] ==> slot.value == pool.nextSlot < KERNEL_STACK_SLOTS)
  {
    var free := pool.free;
    if |free| > 0 {
      assert free == free[..|free| - 1] + [free[|free| - 1]];
    }
  }

  lemma SpawnConserves(s: Sched, cls: SchedClass, framesLeft: bool)
    requires TasksConserved(s) && SlotsExclusive(s)
    ensures TasksConserved(SpawnStep(s, cls, framesLeft)) && SlotsExclusive(SpawnStep(s, cls, framesLeft))
  {
    hide Count, Occurrences, Enqueue;
    var (pool, slot) := Allocate(s.pool, framesLeft);
    if slot.Some? {
      var t := Task(s.spawned, slot.value, cls, 0, false, 0);
      var claimed := s.(pool := pool, spawned := s.spawned + 1);
      forall key: Key, x: nat
        ensures Live(Enqueue(claimed, t), key, x) == Live(s, key, x) + CountOne(Some(t), key, x)
      {
        EnqueueAdds(claimed, t, key, x);
      }
      forall k: nat
        ensures Occurrences(s.pool.free, k) ==
                Occurrences(pool.free, k) + (if s.pool.free != [] && slot.value == k then 1 else 0)
      {
        AllocateMoves(s.pool, framesLeft, k);
      }
      EnqueueFrame(claimed, t);
    }
  }

  lemma EnqueueFrame(s: Sched, t: Task)
    requires Shape(s)
    ensures Enqueue(s, t) == s.(queues := Enqueue(s, t).queues)
  {
  }

  /** The task whose memory a step gives back, if any. */
  function Freed(s: Sched, step: Step): Option<Task> {
    if step.ReapZombie? || (step.Exit? && s.current.Some?) then s.zombie else None
  }

  lemma ExitMoves(s: Sched, key: Key, x: nat)
    requires Shape(s)
    ensures Live(s, key, x) == Live(ExitStep(s), key, x) + CountOne(Freed(s, Exit), key, x)
  {
    if s.current.Some? {
      var parked := s.(current := None, zombie := s.current);
      RunNextConserves(parked, key, x);
      assert Live(ExitStep(s), key, x) == Live(RunNext(parked), key, x);
    }
  }

  lemma ApplyMoves(s: Sched, step: Step, key: Key, x: nat)
    requires QueuesOk(s) && Enabled(s, step) && !step.Spawn?
    ensures Live(s, key, x) == Live(Apply(s, step), key, x) + CountOne(Freed(s, step), key, x)
  {
    hide PlanSwitch, Preempt, ExitStep, RunNext;
    match step
    case Tick(ring3) => PreemptConserves(s.(now := s.now + 1), key, x);
    case Yield(fromUser) => PlanSwitchConserves(s, if fromUser then VoluntaryFromUser else Voluntary, key, x);
    case Exit => ExitMoves(s, key, x);
    case RunUntilIdle => RunNextConserves(s, key, x);
    case SetClass(cls) =>
    case ReapZombie =>
  }

  lemma FreedIsRecorded(s: Sched, step: Step)
    requires Shape(s) && !step.Spawn?
    ensures
      var r := Apply(s, step);
      var freed := Freed(s, step);
      && r.spawned == s.spawned && r.pool.nextSlot == s.pool.nextSlot
      && r.reaped == s.reaped + (if freed.Some? then [freed.value.id] else [])
      && r.pool.free == s.pool.free + (if freed.Some? then [freed.value.slot] else [])
  {
  }

  lemma ApplyConserves(s: Sched, step: Step)
    requires QueuesOk(s) && Enabled(s, step) && TasksConserved(s) && SlotsExclusive(s)
    ensures TasksConserved(Apply(s, step)) && SlotsExclusive(Apply(s, step))
  {
    hide TickStep, PlanSwitch, ExitStep, RunNext, QueueOk;
    if step.Spawn? {
      SpawnConserves(s, step.cls, step.framesLeft);
    } else {
      FreedIsRecorded(s, step);
      forall key: Key, x: nat
        ensures Live(s, key, x) == Live(Apply(s, step), key, x) + CountOne(Freed(s, step), key, x)
      {
        ApplyMoves(s, step, key, x);
      }
    }
  }

  // --- Promotions are rate limited ---------------------------------------------------------------

  function Promotions(s: Sched): nat
    requires Shape(s)
  {
    s.stats[0].promotions + s.stats[1].promotions + s.stats[2].promotions
  }

  predicate RateLimited(s: Sched) {
    Shape(s) && PROMOTION_INTERVAL_TICKS * Promotions(s) <= s.lastPromotion <= s.now
  }

  /** From `s` to `r` at most one promotion was counted, and whenever the promotion time moved it
      moved to the present, at least an interval after the one before. */
  predicate Paced(s: Sched, r: Sched) {
    && Shape(s)
    && RateLimited(r)
    && Promotions(s) <= Promotions(r) <= Promotions(s) + 1
    && (r.lastPromotion == s.lastPromotion || r.lastPromotion == r.now >= s.lastPromotion + PROMOTION_INTERVAL_TICKS)
    && (Promotions(r) > Promotions(s) ==> r.lastPromotion != s.lastPromotion)
  }

  lemma PickKeepsRate(s: Sched)
    requires RateLimited(s) && Choose(s).Take?
    ensures
      var ch := Choose(s);
      var r := Dispatch(AfterPick(s, ch), s.queues[ch.cls][0], ch.promoted);
      Paced(s, AfterPick(s, ch)) && Paced(s, r) && r.now == s.now
  {
  }

  lemma PlanSwitchKeepsRate(s: Sched, kind: SwitchKind)
    requires RateLimited(s)
    ensures Paced(s, PlanSwitch(s, kind))
  {
    if Choose(s).Take? {
      PickKeepsRate(s);
    }
  }

  lemma ExitKeepsRate(s: Sched)
    requires RateLimited(s)
    ensures Paced(s, ExitStep(s))
  {
    if s.current.Some? {
      var parked := s.(current := None, zombie := s.current);
      if Choose(parked).Take? {
        PickKeepsRate(parked);
      }
      assert Paced(s, RunNext(parked));
    }
  }

  lemma PreemptKeepsRate(s: Sched)
    requires RateLimited(s)
    ensures Paced(s, Preempt(s))
  {
    hide PlanSwitch, ShouldPreempt;
    if s.current.None? {
      PlanSwitchKeepsRate(s, Preemptive);
    } else {
      var t := s.current.value.(ticksUsed := s.current.value.ticksUsed + 1);
      PlanSwitchKeepsRate(s.(current := Some(t)), Preemptive);
    }
  }

  lemma ApplyKeepsRate(s: Sched, step: Step)
    requires RateLimited(s)
    ensures Paced(s, Apply(s, step))
  {
    hide PlanSwitch, Preempt, ExitStep, Choose;
    match step
    case Tick(ring3) => PreemptKeepsRate(s.(now := s.now + 1));
    case Yield(fromUser) => PlanSwitchKeepsRate(s, if fromUser then VoluntaryFromUser else Voluntary);
    case Exit => ExitKeepsRate(s);
    case RunUntilIdle =>
      if Choose(s).Take? {
        PickKeepsRate(s);
      }
    case Spawn(cls, framesLeft) =>
    case SetClass(cls) =>
    case ReapZombie =>
  }

  // --- Every reachable state -----------------------------------------------------------------

  ghost predicate Invariant(s: Sched) {
    QueuesOk(s) && TasksConserved(s) && SlotsExclusive(s) && RateLimited(s)
  }

  lemma ApplyKeepsInvariant(s: Sched, step: Step)
    requires Invariant(s) && Enabled(s, step)
    ensures Invariant(Apply(s, step))
  {
    ApplyKeepsQueues(s, step);
    ApplyConserves(s, step);
    ApplyKeepsRate(s, step);
  }

  lemma {:induction false} RunKeepsInvariant(s: Sched, steps: seq<Step>)
    requires Invariant(s) && Legal(s, steps)
    ensures Invariant(After(s, steps))
  {
    if steps != [] {
      var before := steps[..|steps| - 1];
      RunKeepsInvariant(s, before);
      ApplyKeepsInvariant(After(s, before), steps[|steps| - 1]);
    }
  }

  /** From boot, whatever the kernel does. */
  lemma ReachableStates(steps: seq<Step>)
    requires Legal(INITIAL, steps)
    ensures Invariant(After(INITIAL, steps))
  {
    RunKeepsInvariant(INITIAL, steps);
  }

  /** Two slots in use at once have stacks, guard pages included, that do not meet, and each is used
      by one task only. */
  lemma LiveStacksDisjoint(steps: seq<Step>, a: nat, b: nat)
    requires Legal(INITIAL, steps) && a < b
    requires Live(After(INITIAL, steps), Slot, a) > 0 && Live(After(INITIAL, steps), Slot, b) > 0
    ensures Live(After(INITIAL, steps), Slot, a) == 1 && Live(After(INITIAL, steps), Slot, b) == 1
    ensures Top(a) <= Bottom(b) - 4096 && Top(b) < 0x1_0000_0000_0000_0000
  {
    hide Live, QueuesOk, RateLimited, Legal;
    ReachableStates(steps);
    SlotsAreDisjoint(a, b);
  }
}
