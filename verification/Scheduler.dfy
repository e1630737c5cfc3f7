/** The scheduler as the kernel runs it: fields updated in place (kernel/src/sched/task.rs,
    kernel/src/mm/kstack.rs). Each operation is proved to take the step of the same name in
    `SchedModel`, so everything proved there about runs holds of this code. */
module Scheduler {
  import opened Options
  import opened SchedClasses
  import opened KernelStacks
  import opened SchedModel
  import opened SchedInvariants

  /** The kernel stack slot allocator. */
  class StackAllocator {
    var nextSlot: nat
    var freeSlots: seq<nat>

    ghost function Pool(): StackPool
      reads this
    {
      StackPool(nextSlot, freeSlots)
    }

    constructor ()
      ensures Pool() == StackPool(0, [])
    {
      nextSlot, freeSlots := 0, [];
    }

    method Claim(framesLeft: bool) returns (slot: Option<nat>)
      modifies this
      ensures (Pool(), slot) == Allocate(old(Pool()), framesLeft)
    {
      if |freeSlots| > 0 {
        slot := Some(freeSlots[|freeSlots| - 1]);
        freeSlots := freeSlots[..|freeSlots| - 1];
      } else if nextSlot < KERNEL_STACK_SLOTS {
        slot := if framesLeft then Some(nextSlot) else None;
        nextSlot := nextSlot + 1;
      } else {
        slot := None;
      }
    }

    method GiveBack(slot: nat)
      modifies this
      ensures Pool() == Release(old(Pool()), slot)
    {
      freeSlots := freeSlots + [slot];
    }
  }

  class Scheduler {
    var timerTicks: nat
    var readyQueues: seq<seq<Task>>
    var current: Option<Task>
    var zombie: Option<Task>
    var stats: seq<ClassStats>
    var lastPromotionTick: nat
    var panicked: bool
    const stacks: StackAllocator
    /** Counts task creations; stands for the heap address that identifies a new task. */
    var spawned: nat
    ghost var reaped: seq<nat>

    ghost function State(): Sched
      reads this, stacks
    {
      Sched(timerTicks, readyQueues, current, zombie, stats, lastPromotionTick, stacks.Pool(), panicked, spawned, reaped)
    }

    ghost predicate Valid()
      reads this, stacks
    {
      Shape(State())
    }

    constructor ()
      ensures State() == INITIAL && Valid() && fresh(stacks)
    {
      timerTicks, lastPromotionTick := 0, 0;
      readyQueues := [[], [], []];
      current, zombie := None, None;
      stats := [ClassStats(0, 0, 0), ClassStats(0, 0, 0), ClassStats(0, 0, 0)];
      panicked := false;
      stacks := new StackAllocator();
      spawned, reaped := 0, [];
    }

    method PushReady(task: Task, now: nat)
      requires Valid() && now == timerTicks
      modifies this`readyQueues
      ensures State() == Enqueue(old(State()), task)
    {
      var c := task.cls.Rank();
      readyQueues := readyQueues[c := readyQueues[c] + [task.(readySince := now, promoted := false)]];
    }

    /** Whether some class above `c` has a task queued. */
    method HigherClassWaiting(c: nat) returns (waiting: bool)
      requires Valid()
      ensures waiting <==> HigherWaiting(State(), c)
    {
      waiting := false;
      var d := c + 1;
      while d < |readyQueues|
        invariant waiting <==> exists e: nat | c < e < d && e < CLASSES :: ReadyClass(State(), e)
        decreases |readyQueues| - d
      {
        assert ReadyClass(State(), d) <==> readyQueues[d] != [];
        if readyQueues[d] != [] {
          waiting := true;
        }
        d := d + 1;
      }
    }

    method AnyTaskStarving(now: nat) returns (starving: bool)
      requires Valid() && now == timerTicks
      ensures starving <==> AnyStarving(State())
    {
      starving := false;
      for c := 0 to |readyQueues|
        invariant starving <==> exists e: nat | e < c :: StarvingClass(State(), e)
      {
        assert StarvingClass(State(), c) <==> FrontStarving(readyQueues[c], now);
        if FrontStarving(readyQueues[c], now) {
          starving := true;
        }
      }
    }

    /** Removes and returns the next task to run, and whether it was promoted. */
    method PickNext(now: nat) returns (picked: Option<Task>, promoted: bool)
      requires Valid() && now == timerTicks
      modifies this`readyQueues, this`lastPromotionTick
      ensures
        var s, ch := old(State()), Choose(old(State()));
        && State() == AfterPick(s, ch)
        && (ch.Nothing? ==> picked.None?)
        && (ch.Take? ==> picked == Some(s.queues[ch.cls][0]) && promoted == ch.promoted)
    {
      ghost var s := State();
      var rescueAllowed := SatSub(now, lastPromotionTick) >= PROMOTION_INTERVAL_TICKS;
      var c := 0;
      while c < |readyQueues| && rescueAllowed
        invariant State() == s && c <= CLASSES
        invariant forall d: nat | d < c :: !StarvingClass(s, d)
      {
        if FrontStarving(readyQueues[c], now) {
          assert LowestStarving(s) == c;
          var outranked := HigherClassWaiting(c);
          var front := readyQueues[c][0];
          readyQueues := readyQueues[c := readyQueues[c][1..]];
          if outranked {
            lastPromotionTick := now;
          }
          return Some(front), outranked;
        }
        c := c + 1;
      }

      assert !(RescueAllowed(s) && LowestStarving(s) < CLASSES);
      c := |readyQueues|;
      while c > 0
        invariant State() == s && c <= CLASSES
        invariant forall d: nat | c <= d < CLASSES :: !ReadyClass(s, d)
      {
        c := c - 1;
        if |readyQueues[c]| > 0 {
          assert Choose(s) == Take(c, false);
          var front := readyQueues[c][0];
          readyQueues := readyQueues[c := readyQueues[c][1..]];
          return Some(front), false;
        }
      }
      return None, false;
    }

    /** `record_dispatch`, then the task becomes current. */
    method RecordDispatch(task: Task, now: nat, promoted: bool)
      requires Valid() && now == timerTicks
      modifies this`stats, this`current
      ensures State() == Dispatch(old(State()), task, promoted)
    {
      var waited := SatSub(now, task.readySince);
      var c := task.cls.Rank();
      var was := stats[c];
      stats := stats[c := was.(dispatches := was.dispatches + 1)];
      if waited > was.maxWaitTicks {
        stats := stats[c := stats[c].(maxWaitTicks := waited)];
      }
      if promoted {
        stats := stats[c := stats[c].(promotions := stats[c].promotions + 1)];
      }
      current := Some(task.(promoted := promoted, ticksUsed := 0));
    }

    method MustPreempt(now: nat) returns (preempt: bool)
      requires Valid() && now == timerTicks && current.Some?
      ensures preempt <==> ShouldPreempt(State(), current.value)
    {
      var task := current.value;
      var higher := HigherClassWaiting(task.cls.Rank());
      if higher {
        return true;
      }
      var quantum := if task.promoted then 1 else task.cls.QuantumTicks();
      if task.ticksUsed < quantum {
        return false;
      }
      var starving := AnyTaskStarving(now);
      preempt := readyQueues[task.cls.Rank()] != [] || starving;
    }

    /** `plan_switch`: the shared bookkeeping behind yields and preemption. */
    method Switch(kind: SwitchKind)
      requires Valid()
      modifies this
      ensures State() == PlanSwitch(old(State()), kind)
    {
      ghost var s := State();
      var now := timerTicks;
      var picked, promoted := PickNext(now);
      if picked.None? {
        return;
      }
      var next := picked.value;
      if current.None? {
        var c := next.cls.Rank();
        readyQueues := readyQueues[c := [next] + readyQueues[c]];
        panicked := kind.Voluntary?;
        return;
      }
      var outgoing := current.value.(ticksUsed := 0);
      RecordDispatch(next, now, promoted);
      PushReady(outgoing, now);
    }

    /** The timer interrupt handler, as far as the scheduler is concerned. */
    method TimerInterrupt(ring3: bool)
      requires Valid()
      modifies this
      ensures State() == Apply(old(State()), Tick(ring3))
    {
      hide PlanSwitch, ShouldPreempt;
      timerTicks := timerTicks + 1;
      if ring3 && current.None? {
        return;
      }
      if current.Some? {
        current := Some(current.value.(ticksUsed := current.value.ticksUsed + 1));
        var switch := MustPreempt(timerTicks);
        if !switch {
          return;
        }
      }
      Switch(Preemptive);
    }

    method YieldNow(fromUser: bool)
      requires Valid()
      modifies this
      ensures State() == Apply(old(State()), Yield(fromUser))
    {
      Switch(if fromUser then VoluntaryFromUser else Voluntary);
    }

    method SpawnTask(cls: SchedClass, framesLeft: bool)
      requires Valid()
      modifies this, stacks
      ensures State() == Apply(old(State()), Spawn(cls, framesLeft))
    {
      var slot := stacks.Claim(framesLeft);
      if slot.None? {
        panicked := true;
        return;
      }
      var task := Task(spawned, slot.value, cls, 0, false, 0);
      spawned := spawned + 1;
      PushReady(task, timerTicks);
    }

    method DropTask(task: Option<Task>)
      requires Valid()
      modifies this`reaped, stacks
      ensures State() == Drop(old(State()), task)
    {
      if task.Some? {
        stacks.GiveBack(task.value.slot);
        reaped := reaped + [task.value.id];
      }
    }

    method RunPicked()
      requires Valid()
      modifies this`readyQueues, this`lastPromotionTick, this`stats, this`current
      ensures State() == RunNext(old(State()))
    {
      var now := timerTicks;
      var picked, promoted := PickNext(now);
      if picked.Some? {
        RecordDispatch(picked.value, now, promoted);
      }
    }

    method ExitTask()
      requires Valid()
      modifies this, stacks
      ensures State() == Apply(old(State()), Exit)
    {
      if current.None? {
        panicked := true;
        return;
      }
      var reapable := zombie;
      zombie := current;
      current := None;
      RunPicked();
      DropTask(reapable);
    }

    method SetCurrentClass(cls: SchedClass)
      requires Valid()
      modifies this`current
      ensures State() == Apply(old(State()), SetClass(cls))
    {
      if current.Some? {
        current := Some(current.value.(cls := cls));
      }
    }

    /** The part of `run_until_idle` before the boot context is left. */
    method StartRunning()
      requires Valid() && current.None?
      modifies this
      ensures State() == Apply(old(State()), RunUntilIdle)
    {
      RunPicked();
    }

    /** The part of `run_until_idle` after the boot context is resumed. */
    method ReapExited()
      requires Valid()
      modifies this, stacks
      ensures State() == Apply(old(State()), ReapZombie)
    {
      var reapable := zombie;
      zombie := None;
      DropTask(reapable);
    }
  }
}
