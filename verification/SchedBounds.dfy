/** How long a ready task can wait, over every run of the scheduler. */
module SchedBounds {
  import opened Options
  import opened SchedClasses
  import opened SchedModel
  import opened SchedInvariants

  /** `t` waits in the queue of class `c` with `p` tasks ahead of it. */
  predicate At(s: Sched, c: nat, p: nat, t: Task) {
    Shape(s) && c < CLASSES && p < |s.queues[c]| && s.queues[c][p] == t
  }

  predicate Running(s: Sched, t: Task) {
    s.current.Some? && s.current.value.id == t.id
  }

  /** What the wait bounds assume of a state: the reachable-state facts they use, and a task on the
      CPU, so that every timer tick reaches `preempt`. */
  predicate Busy(s: Sched) {
    QueuesOk(s) && RateLimited(s) && s.lastPromotion <= s.now && s.current.Some?
  }

  /** Some step of the run gives `t` the CPU, no later than `deadline`. */
  ghost predicate DispatchedBy(s: Sched, steps: seq<Step>, t: Task, deadline: nat)
    requires Shape(s)
  {
    exists n: nat :: 0 < n <= |steps| && Running(After(s, steps[..n]), t) && After(s, steps[..n]).now <= deadline
  }

  // --- One switch ----------------------------------------------------------------------------

  /** Where `t` stands once a task was popped from class `popped`. */
  function Position(c: nat, p: nat, popped: nat): nat {
    if popped == c && p > 0 then p - 1 else p
  }

  /** From `s` to `r` the chosen task got the CPU: either that was `t`, or `t` kept its place or
      moved up one. */
  predicate Switched(s: Sched, r: Sched, c: nat, p: nat, t: Task)
    requires Shape(s)
  {
    var ch := Choose(s);
    && ch.Take? && r.current.Some? && r.current.value.ticksUsed == 0
    && r.now == s.now && r.lastPromotion == (if ch.promoted then s.now else s.lastPromotion)
    && (if ch.cls == c && p == 0 then Running(r, t) else At(r, c, Position(c, p, ch.cls), t))
  }

  lemma RunNextSwitches(s: Sched, c: nat, p: nat, t: Task)
    requires At(s, c, p, t)
    ensures Switched(s, RunNext(s), c, p, t)
  {
    assert ReadyClass(s, c);
  }

  /** A voluntary or forced switch while a task is running. */
  lemma PlanSwitches(s: Sched, kind: SwitchKind, c: nat, p: nat, t: Task)
    requires At(s, c, p, t) && s.current.Some?
    ensures Switched(s, PlanSwitch(s, kind), c, p, t)
  {
    assert ReadyClass(s, c);
  }

  lemma ExitSwitches(s: Sched, c: nat, p: nat, t: Task)
    requires At(s, c, p, t) && s.current.Some?
    ensures Switched(s, ExitStep(s), c, p, t)
  {
    var parked := s.(current := None, zombie := s.current);
    ChooseIgnoresTasks(s, parked);
    RunNextSwitches(parked, c, p, t);
    hide RunNext, Choose;
    assert Switched(parked, ExitStep(s), c, p, t);
  }

  lemma ChooseIgnoresTasks(s: Sched, r: Sched)
    requires Shape(s) && Shape(r) && r.queues == s.queues && r.now == s.now && r.lastPromotion == s.lastPromotion
    ensures Choose(r) == Choose(s)
  {
    forall c: nat | c < CLASSES ensures HigherWaiting(s, c) == HigherWaiting(r, c) {
      forall d: nat | c < d < CLASSES ensures ReadyClass(s, d) == ReadyClass(r, d) {}
    }
  }

  // --- Realtime latency ------------------------------------------------------------------------

  /** How many more ticks must pass before a rescue can next be allowed, at most four. */
  function Grace(s: Sched): nat {
    SatSub(PROMOTION_INTERVAL_TICKS - 1, SatSub(s.now, s.lastPromotion))
  }

  /** Ticks needed for `n` realtime dispatches when the next `grace` ticks cannot be donated. */
  function RealtimeTicks(n: nat, grace: nat): nat {
    n + (SatSub(n, grace) + 3) / 4
  }

  /** When a realtime task waits, the choice is its queue's front or a recorded rescue. */
  lemma RealtimeChoice(s: Sched)
    requires Shape(s) && s.queues[REALTIME] != []
    ensures
      var ch := Choose(s);
      && ch.Take?
      && (ch.cls == REALTIME ==> !ch.promoted)
      && (ch.cls != REALTIME ==> ch.promoted && RescueAllowed(s))
  {
    assert ReadyClass(s, REALTIME);
  }

  lemma RealtimeAlwaysPreempts(s: Sched)
    requires Shape(s) && s.queues[REALTIME] != [] && s.current.Some? && s.current.value.ticksUsed > 0
    ensures ShouldPreempt(s, s.current.value)
  {
    assert ReadyClass(s, REALTIME);
  }

  lemma RealtimePotential(s: Sched, ticked: Sched, ch: Choice, p: nat)
    requires s.lastPromotion <= s.now <= ticked.now <= s.now + 1 && ticked.lastPromotion == s.lastPromotion
    requires ch.Take? && (ch.cls == REALTIME ==> !ch.promoted && p > 0)
    requires ch.cls != REALTIME ==> ch.promoted && RescueAllowed(ticked)
    ensures
      var r := ticked.(lastPromotion := if ch.promoted then ticked.now else ticked.lastPromotion);
      ticked.now + RealtimeTicks(Position(REALTIME, p, ch.cls) + 1, Grace(r))
      <= s.now + RealtimeTicks(p + 1, Grace(s))
  {
  }

  lemma RealtimeTick(s: Sched, ring3: bool, p: nat, t: Task) returns (q: nat)
    requires Busy(s) && At(s, REALTIME, p, t)
    ensures
      var r := TickStep(s, ring3);
      && r.current.Some? && r.now == s.now + 1
      && (Running(r, t) || (At(r, REALTIME, q, t)
                            && r.now + RealtimeTicks(q + 1, Grace(r)) <= s.now + RealtimeTicks(p + 1, Grace(s))))
  {
    hide PlanSwitch, Choose, ShouldPreempt, RealtimeTicks, QueueOk, Promotions;
    var used := s.current.value.(ticksUsed := s.current.value.ticksUsed + 1);
    var ticked := s.(now := s.now + 1, current := Some(used));
    RealtimeAlwaysPreempts(ticked);
    RealtimeChoice(ticked);
    PlanSwitches(ticked, Preemptive, REALTIME, p, t);
    var ch := Choose(ticked);
    q := Position(REALTIME, p, ch.cls);
    if ch.cls != REALTIME || p > 0 {
      RealtimePotential(s, ticked, ch, p);
    }
  }

  /** Any step: the task is dispatched, or its remaining worst case shrinks by the time passed. */
  lemma RealtimeStep(s: Sched, step: Step, p: nat, t: Task) returns (q: nat)
    requires Busy(s) && At(s, REALTIME, p, t) && Enabled(s, step)
    ensures
      var r := Apply(s, step);
      && r.current.Some? && r.now <= s.now + 1
      && (Running(r, t) || (At(r, REALTIME, q, t)
                            && r.now + RealtimeTicks(q + 1, Grace(r)) <= s.now + RealtimeTicks(p + 1, Grace(s))))
  {
    hide PlanSwitch, Choose, ShouldPreempt, RealtimeTicks, QueueOk, Promotions, Preempt, ExitStep, RunNext;
    q := p;
    match step
    case Tick(ring3) =>
      q := RealtimeTick(s, ring3, p, t);
    case Yield(fromUser) =>
      var kind := if fromUser then VoluntaryFromUser else Voluntary;
      RealtimeChoice(s);
      PlanSwitches(s, kind, REALTIME, p, t);
      q := Position(REALTIME, p, Choose(s).cls);
      if Choose(s).cls != REALTIME || p > 0 {
        RealtimePotential(s, s, Choose(s), p);
      }
    case Exit =>
      RealtimeChoice(s);
      ExitSwitches(s, REALTIME, p, t);
      q := Position(REALTIME, p, Choose(s).cls);
      if Choose(s).cls != REALTIME || p > 0 {
        RealtimePotential(s, s, Choose(s), p);
      }
    case Spawn(cls, framesLeft) =>
    case SetClass(cls) =>
  }

  lemma BusyStep(s: Sched, step: Step)
    requires Busy(s) && Apply(s, step).current.Some?
    ensures Busy(Apply(s, step))
  {
    ApplyKeepsQueues(s, step);
    ApplyKeepsRate(s, step);
  }

  /** After `n` steps: dispatched in time, or still waiting and on schedule. */
  lemma {:induction false} RealtimeRun(s: Sched, steps: seq<Step>, p: nat, t: Task, n: nat) returns (q: nat)
    requires Busy(s) && At(s, REALTIME, p, t) && Legal(s, steps) && n <= |steps|
    ensures
      var deadline := s.now + RealtimeTicks(p + 1, Grace(s));
      var u := After(s, steps[..n]);
      || DispatchedBy(s, steps, t, deadline)
      || (Busy(u) && At(u, REALTIME, q, t) && u.now + RealtimeTicks(q + 1, Grace(u)) <= deadline)
  {
    hide Busy, Apply, Enabled, Grace, DispatchedBy;
    var deadline := s.now + RealtimeTicks(p + 1, Grace(s));
    if n == 0 {
      return p;
    }
    q := RealtimeRun(s, steps, p, t, n - 1);
    var v := After(s, steps[..n - 1]);
    if !DispatchedBy(s, steps, t, deadline) {
      PrefixStep(s, steps, n - 1);
      var old_q := q;
      q := RealtimeStep(v, steps[n - 1], old_q, t);
      BusyStep(v, steps[n - 1]);
      if Running(After(s, steps[..n]), t) {
        DispatchedAt(s, steps, t, deadline, n);
      }
    }
  }

  lemma DispatchedAt(s: Sched, steps: seq<Step>, t: Task, deadline: nat, n: nat)
    requires Shape(s) && 0 < n <= |steps|
    requires Running(After(s, steps[..n]), t) && After(s, steps[..n]).now <= deadline
    ensures DispatchedBy(s, steps, t, deadline)
  {
  }

  /** Realtime latency: a realtime task with `p` realtime tasks ahead of it runs within
      ceil(5(p + 1) / 4) ticks, whatever else is queued and whatever steps are interleaved. */
  lemma RealtimeLatency(s: Sched, steps: seq<Step>, p: nat, t: Task)
    requires Busy(s) && At(s, REALTIME, p, t) && Legal(s, steps)
    requires After(s, steps).now >= s.now + (5 * (p + 1) + 3) / 4
    ensures DispatchedBy(s, steps, t, s.now + (5 * (p + 1) + 3) / 4)
  {
    var q := RealtimeRun(s, steps, p, t, |steps|);
    assert steps[..|steps|] == steps;
    assert RealtimeTicks(p + 1, Grace(s)) <= (5 * (p + 1) + 3) / 4;
  }

  // --- Bounded wait for the lowest waiting class --------------------------------------------------

  /** Nothing less urgent than class `c` is queued. */
  predicate LowestWaiting(s: Sched, c: nat) {
    Shape(s) && forall d: nat | d < c && d < CLASSES :: s.queues[d] == []
  }

  /** The first time the front of the queue is sure to be rescued if a switch happens. */
  function RescueTime(s: Sched, t: Task): nat {
    var starved := t.readySince + STARVATION_LIMIT_TICKS;
    var allowed := s.lastPromotion + PROMOTION_INTERVAL_TICKS;
    if starved > allowed then starved else allowed
  }

  /** By when the front of the class must have been dispatched, if `t` is in its queue. */
  function FrontDeadline(s: Sched, t: Task): nat
    requires s.current.Some?
  {
    if s.now < t.readySince + STARVATION_LIMIT_TICKS then
      t.readySince + STARVATION_LIMIT_TICKS + PROMOTION_INTERVAL_TICKS + LONGEST_QUANTUM - 2
    else if s.now < RescueTime(s, t) then
      RescueTime(s, t) + LONGEST_QUANTUM - 1
    else if s.current.value.ticksUsed < LONGEST_QUANTUM then
      s.now + LONGEST_QUANTUM - s.current.value.ticksUsed
    else
      s.now + 1
  }

  const TURN: nat := PROMOTION_INTERVAL_TICKS + LONGEST_QUANTUM - 1

  /** `t` is still waiting in class `c` at place `q`, no later than schedule `deadline` allows. */
  predicate OnSchedule(s: Sched, c: nat, q: nat, t: Task, deadline: nat) {
    Busy(s) && At(s, c, q, t) && FrontDeadline(s, t) + TURN * q <= deadline
  }

  lemma RescueChoice(s: Sched, c: nat, p: nat, t: Task)
    requires QueuesOk(s) && At(s, c, p, t) && LowestWaiting(s, c)
    requires s.lastPromotion <= s.now && s.now >= RescueTime(s, t)
    ensures Choose(s).Take? && Choose(s).cls == c
    ensures AnyStarving(s)
  {
    FrontIsOldest(s, c, p, t);
    assert StarvingClass(s, c);
  }

  lemma FrontIsOldest(s: Sched, c: nat, p: nat, t: Task)
    requires QueuesOk(s) && At(s, c, p, t)
    ensures s.queues[c][0].readySince <= t.readySince <= s.now
  {
    assert QueueOk(s.queues[c], c, s.now);
  }

  lemma SwitchOnSchedule(s: Sched, r: Sched, c: nat, p: nat, t: Task)
    requires QueuesOk(s) && s.lastPromotion <= s.now && s.current.Some? && At(s, c, p, t) && LowestWaiting(s, c)
    requires Switched(s, r, c, p, t) && !Running(r, t)
    ensures s.now >= RescueTime(s, t) ==> FrontDeadline(r, t) + TURN * Position(c, p, Choose(s).cls) <= s.now + TURN * p
    ensures FrontDeadline(r, t) + TURN * Position(c, p, Choose(s).cls) <= FrontDeadline(s, t) + TURN * p
  {
    hide Choose;
    FrontIsOldest(s, c, p, t);
    if s.now >= RescueTime(s, t) {
      RescueChoice(s, c, p, t);
    } else if Choose(s).promoted {
      PromotionNeedsInterval(s);
    }
  }

  lemma PromotionNeedsInterval(s: Sched)
    requires Shape(s) && Choose(s).Take? && Choose(s).promoted
    ensures RescueAllowed(s)
  {
  }

  lemma TickOnSchedule(s: Sched, ring3: bool, c: nat, p: nat, t: Task) returns (q: nat)
    requires Busy(s) && At(s, c, p, t) && LowestWaiting(s, c)
    ensures
      var r := TickStep(s, ring3);
      && r.current.Some? && r.now == s.now + 1
      && (Running(r, t) || (At(r, c, q, t) && FrontDeadline(r, t) + TURN * q <= FrontDeadline(s, t) + TURN * p))
  {
    hide PlanSwitch, Choose, QueueOk, Promotions, HigherWaiting, Preempt;
    FrontIsOldest(s, c, p, t);
    var used := s.current.value.(ticksUsed := s.current.value.ticksUsed + 1);
    var ticked := s.(now := s.now + 1, current := Some(used));
    assert QueuesOk(ticked) by {
      ApplyKeepsClock(s);
    }
    PreemptIs(s, ring3);
    TickedDeadline(s, ticked, t);
    q := p;
    if ShouldPreempt(ticked, used) {
      PlanSwitches(ticked, Preemptive, c, p, t);
      q := Position(c, p, Choose(ticked).cls);
      if !Running(PlanSwitch(ticked, Preemptive), t) {
        SwitchOnSchedule(ticked, PlanSwitch(ticked, Preemptive), c, p, t);
      }
    } else if ticked.now >= RescueTime(ticked, t) {
      RescueChoice(ticked, c, p, t);
    }
  }

  lemma PreemptIs(s: Sched, ring3: bool)
    requires Shape(s) && s.current.Some?
    ensures
      var used := s.current.value.(ticksUsed := s.current.value.ticksUsed + 1);
      var ticked := s.(now := s.now + 1, current := Some(used));
      TickStep(s, ring3) == if ShouldPreempt(ticked, used) then PlanSwitch(ticked, Preemptive) else ticked
  {
  }

  lemma ApplyKeepsClock(s: Sched)
    requires QueuesOk(s)
    ensures QueuesOk(s.(now := s.now + 1))
  {
  }

  /** Counting a tick alone never postpones the deadline, while the deadline is still ahead. */
  lemma TickedDeadline(s: Sched, ticked: Sched, t: Task)
    requires s.current.Some? && s.lastPromotion <= s.now
    requires ticked.current == Some(s.current.value.(ticksUsed := s.current.value.ticksUsed + 1))
    requires ticked.now == s.now + 1 && ticked.lastPromotion == s.lastPromotion
    ensures FrontDeadline(ticked, t) <= FrontDeadline(s, t) + 1
    ensures s.current.value.ticksUsed + 1 < LONGEST_QUANTUM || ticked.now < RescueTime(ticked, t) ==>
              FrontDeadline(ticked, t) <= FrontDeadline(s, t)
  {
  }

  lemma StepOnSchedule(s: Sched, step: Step, c: nat, p: nat, t: Task) returns (q: nat)
    requires Busy(s) && At(s, c, p, t) && LowestWaiting(s, c) && Enabled(s, step)
    ensures
      var r := Apply(s, step);
      && r.current.Some? && r.now <= s.now + 1
      && (Running(r, t) || (At(r, c, q, t) && FrontDeadline(r, t) + TURN * q <= FrontDeadline(s, t) + TURN * p))
  {
    hide PlanSwitch, Choose, QueueOk, Promotions, Preempt, ExitStep, RunNext, TickStep;
    q := p;
    match step
    case Tick(ring3) =>
      q := TickOnSchedule(s, ring3, c, p, t);
    case Yield(fromUser) =>
      var r := PlanSwitch(s, if fromUser then VoluntaryFromUser else Voluntary);
      PlanSwitches(s, if fromUser then VoluntaryFromUser else Voluntary, c, p, t);
      q := Position(c, p, Choose(s).cls);
      if !Running(r, t) {
        SwitchOnSchedule(s, r, c, p, t);
      }
    case Exit =>
      ExitSwitches(s, c, p, t);
      q := Position(c, p, Choose(s).cls);
      if !Running(ExitStep(s), t) {
        SwitchOnSchedule(s, ExitStep(s), c, p, t);
      }
    case Spawn(cls, framesLeft) =>
    case SetClass(cls) =>
  }

  /** In every state of the run, nothing less urgent than class `c` is queued. */
  ghost predicate LowestThroughout(s: Sched, steps: seq<Step>, c: nat)
    requires Shape(s)
  {
    forall n: nat | n <= |steps| :: LowestWaiting(After(s, steps[..n]), c)
  }

  lemma {:induction false} WaitRun(s: Sched, steps: seq<Step>, c: nat, p: nat, t: Task, n: nat) returns (q: nat)
    requires Busy(s) && At(s, c, p, t) && Legal(s, steps) && n <= |steps| && LowestThroughout(s, steps, c)
    ensures
      var deadline := FrontDeadline(s, t) + TURN * p;
      DispatchedBy(s, steps, t, deadline) || OnSchedule(After(s, steps[..n]), c, q, t, deadline)
  {
    hide QueuesOk, RateLimited, Apply, Enabled, DispatchedBy, LowestWaiting;
    var deadline := FrontDeadline(s, t) + TURN * p;
    if n == 0 {
      return p;
    }
    q := WaitRun(s, steps, c, p, t, n - 1);
    var v := After(s, steps[..n - 1]);
    if !DispatchedBy(s, steps, t, deadline) {
      PrefixStep(s, steps, n - 1);
      assert v.now < FrontDeadline(v, t);
      var before := q;
      q := StepOnSchedule(v, steps[n - 1], c, before, t);
      BusyStep(v, steps[n - 1]);
      if Running(After(s, steps[..n]), t) {
        DispatchedAt(s, steps, t, deadline, n);
      }
    }
  }

  lemma FrontDeadlineBound(s: Sched, t: Task)
    requires s.current.Some? && s.lastPromotion <= s.now
    ensures s.now < FrontDeadline(s, t)
    ensures FrontDeadline(s, t) <= t.readySince + 59 || FrontDeadline(s, t) <= s.now + 10
  {
  }

  lemma DispatchedEarlier(s: Sched, steps: seq<Step>, t: Task, early: nat, late: nat)
    requires Shape(s) && early <= late
    ensures DispatchedBy(s, steps, t, early) ==> DispatchedBy(s, steps, t, late)
  {
  }

  /** Bounded wait: while nothing less urgent is queued, a task that became ready at `readySince`
      and has `p` tasks of its class ahead of it runs by `readySince + 49 + 10 (p + 1)`, or, if it
      was already overdue when the run started, 10 (p + 1) ticks into the run. */
  lemma BoundedWait(s: Sched, steps: seq<Step>, c: nat, p: nat, t: Task, deadline: nat)
    requires Busy(s) && At(s, c, p, t) && Legal(s, steps) && LowestThroughout(s, steps, c)
    requires deadline >= t.readySince + 49 + 10 * (p + 1) && deadline >= s.now + 10 * (p + 1)
    requires After(s, steps).now >= deadline
    ensures DispatchedBy(s, steps, t, deadline)
  {
    hide QueuesOk, RateLimited, Legal, LowestThroughout, After, DispatchedBy;
    FrontDeadlineBound(s, t);
    var q := WaitRun(s, steps, c, p, t, |steps|);
    assert steps[..|steps|] == steps;
    if !DispatchedBy(s, steps, t, deadline) {
      DispatchedEarlier(s, steps, t, FrontDeadline(s, t) + TURN * p, deadline);
    }
  }

  /** Background bounded wait: no condition at all, since nothing is less urgent. */
  lemma BackgroundWait(s: Sched, steps: seq<Step>, p: nat, t: Task)
    requires Busy(s) && At(s, BACKGROUND, p, t) && Legal(s, steps) && s.now == t.readySince
    requires After(s, steps).now >= s.now + 49 + 10 * (p + 1)
    ensures DispatchedBy(s, steps, t, s.now + 49 + 10 * (p + 1))
  {
    BoundedWait(s, steps, BACKGROUND, p, t, s.now + 49 + 10 * (p + 1));
  }
}
