/** What the boot report's figures mean: dispatches, promotions and the longest wait are those of the
    whole history (kernel/src/sched/task.rs). */
module SchedStats {
  import opened Options
  import opened SchedClasses
  import opened SchedModel
  import opened SchedInvariants

  /** The task a step gives the CPU to, as it finds itself: nobody, if the same task keeps it. */
  function Given(s: Sched, step: Step): Option<Task>
    requires Shape(s)
  {
    var r := Apply(s, step);
    if r.current.Some? && (s.current.None? || s.current.value.id != r.current.value.id) then r.current else None
  }

  /** The statistics of each class once `t` was given the CPU at `now`. */
  predicate Recorded(was: seq<ClassStats>, after: seq<ClassStats>, given: Option<Task>, now: nat) {
    && |was| == |after| == CLASSES
    && forall c: nat | c < CLASSES ::
         if given.Some? && given.value.cls.Rank() == c then
           && after[c].dispatches == was[c].dispatches + 1
           && after[c].promotions == was[c].promotions + (if given.value.promoted then 1 else 0)
           && after[c].maxWaitTicks == Max(was[c].maxWaitTicks, SatSub(now, given.value.readySince))
         else after[c] == was[c]
  }

  lemma FrontIsOther(s: Sched, c: nat)
    requires TasksConserved(s) && c < CLASSES && s.queues[c] != [] && s.current.Some?
    ensures s.queues[c][0].id != s.current.value.id
  {
    var x := s.queues[c][0].id;
    assert Live(s, Id, x) + Occurrences(s.reaped, x) == if x < s.spawned then 1 else 0;
    assert Count(s.queues[c], Id, x) >= 1;
  }

  lemma DispatchRecords(s: Sched, t: Task, promoted: bool)
    requires Shape(s)
    ensures Recorded(s.stats, Dispatch(s, t, promoted).stats, Some(t.(promoted := promoted, ticksUsed := 0)), s.now)
  {
  }

  lemma SwitchRecords(s: Sched, kind: SwitchKind)
    requires QueuesOk(s) && TasksConserved(s)
    ensures
      var r := PlanSwitch(s, kind);
      && r.now == s.now
      && Recorded(s.stats, r.stats,
                  if r.current.Some? && (s.current.None? || s.current.value.id != r.current.value.id) then r.current else None, s.now)
  {
    hide TasksConserved;
    var ch := Choose(s);
    if ch.Take? && s.current.Some? {
      FrontIsOther(s, ch.cls);
      assert QueueOk(s.queues[ch.cls], ch.cls, s.now);
      DispatchRecords(AfterPick(s, ch), s.queues[ch.cls][0], ch.promoted);
    }
    hide Choose, QueueOk;
  }

  lemma RunNextRecords(s: Sched)
    requires QueuesOk(s) && s.current.None?
    ensures Recorded(s.stats, RunNext(s).stats, RunNext(s).current, s.now) && RunNext(s).now == s.now
  {
    var ch := Choose(s);
    if ch.Take? {
      assert QueueOk(s.queues[ch.cls], ch.cls, s.now);
      DispatchRecords(AfterPick(s, ch), s.queues[ch.cls][0], ch.promoted);
    }
    hide Choose, QueueOk;
  }

  lemma ExitRecords(s: Sched)
    requires QueuesOk(s) && TasksConserved(s)
    ensures Recorded(s.stats, ExitStep(s).stats, Given(s, Exit), s.now) && ExitStep(s).now == s.now
  {
    hide TasksConserved;
    if s.current.Some? {
      var parked := s.(current := None, zombie := s.current);
      RunNextRecords(parked);
      if Choose(parked).Take? {
        FrontIsOther(s, Choose(parked).cls);
      }
    }
    hide QueueOk;
  }

  /** A step changes the statistics exactly for the task it gives the CPU to, if any. */
  lemma StepRecords(s: Sched, step: Step)
    requires QueuesOk(s) && TasksConserved(s) && Enabled(s, step)
    ensures Recorded(s.stats, Apply(s, step).stats, Given(s, step), Apply(s, step).now)
  {
    hide PlanSwitch, RunNext, ExitStep, QueueOk, TasksConserved, Live, Recorded;
    NothingRecorded(s.stats, s.now);
    NothingRecorded(s.stats, s.now + 1);
    match step
    case Tick(ring3) => TickRecords(s, ring3);
    case Yield(fromUser) => SwitchRecords(s, if fromUser then VoluntaryFromUser else Voluntary);
    case Exit => ExitRecords(s);
    case RunUntilIdle => RunNextRecords(s);
    case Spawn(cls, framesLeft) =>
    case SetClass(cls) =>
    case ReapZombie =>
  }

  lemma NothingRecorded(stats: seq<ClassStats>, now: nat)
    requires |stats| == CLASSES
    ensures Recorded(stats, stats, None, now)
  {
  }

  lemma TickRecords(s: Sched, ring3: bool)
    requires QueuesOk(s) && TasksConserved(s)
    ensures Recorded(s.stats, TickStep(s, ring3).stats, Given(s, Tick(ring3)), TickStep(s, ring3).now)
  {
    hide PlanSwitch, ShouldPreempt, QueueOk, Recorded;
    NothingRecorded(s.stats, s.now + 1);
    if s.current.Some? {
      var ticked := s.(now := s.now + 1, current := Some(s.current.value.(ticksUsed := s.current.value.ticksUsed + 1)));
      assert TasksConserved(ticked) by {
        forall i: nat ensures Live(ticked, Id, i) == Live(s, Id, i) {
        }
      }
      LaterKeepsQueues(s, ticked);
      hide TasksConserved, Live;
      if ShouldPreempt(ticked, ticked.current.value) {
        SwitchRecords(ticked, Preemptive);
      }
    } else {
      var ticked := s.(now := s.now + 1);
      LaterKeepsQueues(s, ticked);
      assert TasksConserved(ticked) by {
        forall i: nat ensures Live(ticked, Id, i) == Live(s, Id, i) {
        }
      }
      hide TasksConserved, Live;
      SwitchRecords(ticked, Preemptive);
      IdleSwitchRunsNobody(ticked);
    }
  }

  lemma LaterKeepsQueues(s: Sched, later: Sched)
    requires QueuesOk(s) && Shape(later) && later.queues == s.queues && later.now >= s.now
    ensures QueuesOk(later)
  {
  }

  lemma IdleSwitchRunsNobody(s: Sched)
    requires Shape(s) && s.current.None?
    ensures PlanSwitch(s, Preemptive).current.None?
  {
  }

  // --- The whole history ----------------------------------------------------------------------------

  /** How often tasks of class `c` were given the CPU, and the longest any of them had waited for it. */
  function Dispatches(s: Sched, steps: seq<Step>, c: nat): nat
    requires Shape(s)
  {
    if steps == [] then 0
    else
      var before := steps[..|steps| - 1];
      var given := Given(After(s, before), steps[|steps| - 1]);
      Dispatches(s, before, c) + if given.Some? && given.value.cls.Rank() == c then 1 else 0
  }

  function LongestWait(s: Sched, steps: seq<Step>, c: nat): nat
    requires Shape(s)
  {
    if steps == [] then 0
    else
      var before := steps[..|steps| - 1];
      var given := Given(After(s, before), steps[|steps| - 1]);
      if given.Some? && given.value.cls.Rank() == c
      then Max(LongestWait(s, before, c), SatSub(After(s, steps).now, given.value.readySince))
      else LongestWait(s, before, c)
  }

  /** The figures reported are those of the history since boot. */
  lemma {:induction false} FiguresAreMeasured(steps: seq<Step>, c: nat)
    requires Legal(INITIAL, steps) && c < CLASSES
    ensures
      var s := After(INITIAL, steps);
      s.stats[c].dispatches == Dispatches(INITIAL, steps, c) && s.stats[c].maxWaitTicks == LongestWait(INITIAL, steps, c)
    decreases |steps|
  {
    hide Apply, QueuesOk, TasksConserved, SlotsExclusive, RateLimited;
    if steps != [] {
      var before := steps[..|steps| - 1];
      FiguresAreMeasured(before, c);
      ReachableStates(before);
      StepRecords(After(INITIAL, before), steps[|steps| - 1]);
    }
  }
}
