/** How long a normal task can wait while background tasks wait below it.

    Rescue serves the lowest class first, so waiting background tasks can take the rescues a normal
    task needs. With at most seven of them queued they cannot take enough: rescues come at most
    seven ticks apart, and a task rescued within fifty ticks of another must have been queued
    beside it. */
module SchedNormalWait {
  import opened Options
  import opened SchedClasses
  import opened SchedModel
  import opened SchedInvariants
  import opened SchedBounds

  const NORMAL_QUANTUM: nat := 3

  /** The longest time from one rescue to the next while a normal task starves. */
  const RESCUE_GAP: nat := PROMOTION_INTERVAL_TICKS + NORMAL_QUANTUM - 1

  /** How many background tasks may be queued for a normal task's wait to be bounded. */
  const SAFE_BACKGROUND: nat := 7

  // --- Background tasks in the way ----------------------------------------------------------------

  /** How many tasks at the front of the background queue can be rescued first, when the next rescue
      comes by `next` and each later one at most a gap after it. */
  function Blocking(q: seq<Task>, next: nat): nat
    decreases |q|
  {
    if q == [] || q[0].readySince + STARVATION_LIMIT_TICKS > next then 0
    else 1 + Blocking(q[1..], next + RESCUE_GAP)
  }

  lemma {:induction false} BlockingAtMost(q: seq<Task>, next: nat)
    ensures Blocking(q, next) <= |q|
    decreases |q|
  {
    if q != [] {
      BlockingAtMost(q[1..], next + RESCUE_GAP);
    }
  }

  lemma {:induction false} BlockingSooner(q: seq<Task>, early: nat, late: nat)
    requires early <= late
    ensures Blocking(q, early) <= Blocking(q, late)
    decreases |q|
  {
    if q != [] {
      BlockingSooner(q[1..], early + RESCUE_GAP, late + RESCUE_GAP);
    }
  }

  /** A rescue that takes the front uses up one of those in the way. */
  lemma BlockingPopped(q: seq<Task>, at: nat, next: nat)
    requires q != [] && q[0].readySince + STARVATION_LIMIT_TICKS <= at <= next
    ensures at + RESCUE_GAP + RESCUE_GAP * Blocking(q[1..], at + RESCUE_GAP) <= next + RESCUE_GAP * Blocking(q, next)
  {
    BlockingSooner(q[1..], at + RESCUE_GAP, next + RESCUE_GAP);
  }

  /** A task that joins a queue of at most six is too young to get in the way. */
  lemma {:induction false} BlockingJoined(q: seq<Task>, t: Task, next: nat)
    requires t.readySince + STARVATION_LIMIT_TICKS > next + RESCUE_GAP * |q|
    ensures Blocking(q + [t], next) == Blocking(q, next)
    decreases |q|
  {
    if q == [] {
      assert q + [t] == [t];
    } else {
      BlockingJoined(q[1..], t, next + RESCUE_GAP);
      assert (q + [t])[1..] == q[1..] + [t];
    }
  }

  /** `after` is `before`, or that with one task that has just become ready. */
  predicate Grew(before: seq<Task>, after: seq<Task>, now: nat) {
    after == before || (after != [] && after[..|after| - 1] == before && after[|after| - 1].readySince == now)
  }

  lemma BlockingGrew(before: seq<Task>, after: seq<Task>, now: nat, next: nat)
    requires Grew(before, after, now) && |after| <= SAFE_BACKGROUND && next <= now + RESCUE_GAP
    ensures Blocking(after, next) == Blocking(before, next)
  {
    if after != before {
      var t := after[|after| - 1];
      assert after == before + [t];
      BlockingJoined(before, t, next);
    }
  }

  // --- The deadline -------------------------------------------------------------------------------

  /** By when the next rescue is sure to come, once `t` starves. */
  function NextRescue(s: Sched, t: Task): nat
    requires s.current.Some?
  {
    if s.now < RescueTime(s, t) then RescueTime(s, t) + NORMAL_QUANTUM - 1
    else if s.current.value.ticksUsed < NORMAL_QUANTUM then s.now + NORMAL_QUANTUM - s.current.value.ticksUsed
    else s.now + 1
  }

  /** By when the front of the normal queue, which holds `t`, is sure to be dispatched, when at most
      `k` background tasks are ever queued. */
  function NormalDeadline(s: Sched, t: Task, k: nat): nat
    requires Shape(s) && s.current.Some?
  {
    if s.now < t.readySince + STARVATION_LIMIT_TICKS then
      t.readySince + STARVATION_LIMIT_TICKS + RESCUE_GAP - 1 + RESCUE_GAP * k
    else
      NextRescue(s, t) + RESCUE_GAP * Blocking(s.queues[BACKGROUND], NextRescue(s, t))
  }

  function Turn(k: nat): nat {
    RESCUE_GAP * (k + 1)
  }

  lemma NextRescueBounds(s: Sched, t: Task)
    requires s.current.Some? && s.lastPromotion <= s.now && t.readySince + STARVATION_LIMIT_TICKS <= s.now
    ensures s.now < NextRescue(s, t) <= s.now + RESCUE_GAP
  {
  }

  lemma NormalDeadlineBounds(s: Sched, t: Task, k: nat)
    requires Shape(s) && s.current.Some? && s.lastPromotion <= s.now && |s.queues[BACKGROUND]| <= k
    ensures s.now < NormalDeadline(s, t, k)
    ensures s.now >= t.readySince + STARVATION_LIMIT_TICKS ==> NormalDeadline(s, t, k) <= s.now + Turn(k)
    ensures s.now < t.readySince + STARVATION_LIMIT_TICKS ==> NormalDeadline(s, t, k) == t.readySince + STARVATION_LIMIT_TICKS - 1 + Turn(k)
  {
    if s.now >= t.readySince + STARVATION_LIMIT_TICKS {
      NextRescueBounds(s, t);
      BlockingAtMost(s.queues[BACKGROUND], NextRescue(s, t));
    }
  }

  // --- One switch ---------------------------------------------------------------------------------

  /** The background queue once the choice was made. */
  function Popped(s: Sched): seq<Task>
    requires Shape(s) && Choose(s).Take?
  {
    if Choose(s).cls == BACKGROUND then s.queues[BACKGROUND][1..] else s.queues[BACKGROUND]
  }

  lemma PlanSwitchGrows(s: Sched, kind: SwitchKind)
    requires Shape(s) && s.current.Some? && Choose(s).Take?
    ensures Grew(Popped(s), PlanSwitch(s, kind).queues[BACKGROUND], s.now)
  {
  }

  lemma ExitGrows(s: Sched)
    requires Shape(s) && s.current.Some? && Choose(s).Take?
    ensures Grew(Popped(s), ExitStep(s).queues[BACKGROUND], s.now)
  {
    var parked := s.(current := None, zombie := s.current);
    ChooseIgnoresTasks(s, parked);
    hide Choose;
  }

  /** While a normal task waits, a background task gets the CPU only by a recorded rescue, and once
      the normal task starves a rescue goes to a starving background task or to the normal class. */
  lemma NormalChoice(s: Sched, p: nat, t: Task)
    requires QueuesOk(s) && At(s, NORMAL, p, t) && s.lastPromotion <= s.now
    ensures
      var ch := Choose(s);
      && ch.Take?
      && (ch.cls == BACKGROUND ==> ch.promoted && RescueAllowed(s) && Waited(s.queues[BACKGROUND][0], s.now))
      && (ch.cls == REALTIME ==> !ch.promoted)
      && (s.now >= RescueTime(s, t) ==> ch.cls != REALTIME)
  {
    FrontIsOldest(s, NORMAL, p, t);
    assert ReadyClass(s, NORMAL);
    if s.now >= RescueTime(s, t) {
      assert StarvingClass(s, NORMAL);
    }
  }

  /** A rescue that comes by `next` leaves `t` no later than those in the way at `next` allow. */
  lemma RescuedInTime(s: Sched, r: Sched, p: nat, t: Task, k: nat, next: nat)
    requires QueuesOk(s) && s.lastPromotion <= s.now && s.current.Some? && At(s, NORMAL, p, t) && k <= SAFE_BACKGROUND
    requires Switched(s, r, NORMAL, p, t) && !Running(r, t)
    requires Choose(s).Take? ==> Grew(Popped(s), r.queues[BACKGROUND], s.now)
    requires |r.queues[BACKGROUND]| <= k
    requires RescueTime(s, t) <= s.now <= next
    ensures NormalDeadline(r, t, k) + Turn(k) * Position(NORMAL, p, Choose(s).cls)
            <= next + RESCUE_GAP * Blocking(s.queues[BACKGROUND], next) + Turn(k) * p
  {
    hide Choose, QueueOk, Blocking;
    NormalChoice(s, p, t);
    NormalDeadlineBounds(r, t, k);
    if Choose(s).cls == NORMAL {
      TurnPaid(k, p);
    } else {
      BlockingGrew(Popped(s), r.queues[BACKGROUND], s.now, NextRescue(r, t));
      BlockingPopped(s.queues[BACKGROUND], s.now, next);
    }
  }

  /** A switch keeps `t` on schedule, or dispatches it. */
  lemma SwitchInTime(s: Sched, r: Sched, p: nat, t: Task, k: nat)
    requires QueuesOk(s) && s.lastPromotion <= s.now && s.current.Some? && At(s, NORMAL, p, t) && k <= SAFE_BACKGROUND
    requires Switched(s, r, NORMAL, p, t) && !Running(r, t)
    requires Choose(s).Take? ==> Grew(Popped(s), r.queues[BACKGROUND], s.now)
    requires |s.queues[BACKGROUND]| <= k && |r.queues[BACKGROUND]| <= k
    ensures NormalDeadline(r, t, k) + Turn(k) * Position(NORMAL, p, Choose(s).cls) <= NormalDeadline(s, t, k) + Turn(k) * p
  {
    hide Choose, QueueOk, Blocking;
    NormalChoice(s, p, t);
    NormalDeadlineBounds(s, t, k);
    NormalDeadlineBounds(r, t, k);
    var ch := Choose(s);
    if s.now >= t.readySince + STARVATION_LIMIT_TICKS {
      NextRescueBounds(s, t);
      if s.now >= RescueTime(s, t) {
        RescuedInTime(s, r, p, t, k, NextRescue(s, t));
      } else if ch.cls == NORMAL {
        TurnPaid(k, p);
      } else {
        NextRescueBounds(r, t);
        BlockingGrew(Popped(s), r.queues[BACKGROUND], s.now, NextRescue(r, t));
      }
    } else if ch.cls == NORMAL {
      TurnPaid(k, p);
    }
  }

  lemma TurnPaid(k: nat, p: nat)
    ensures p > 0 ==> Turn(k) * (p - 1) + Turn(k) == Turn(k) * p
  {
  }

  // --- Every step ---------------------------------------------------------------------------------

  predicate Ticked(s: Sched, ticked: Sched) {
    && Shape(s) && s.current.Some?
    && ticked == s.(now := s.now + 1, current := Some(s.current.value.(ticksUsed := s.current.value.ticksUsed + 1)))
  }

  /** Counting a tick alone does not postpone the deadline, unless a switch is due. */
  lemma TickedInTime(s: Sched, ticked: Sched, t: Task, k: nat)
    requires Ticked(s, ticked) && s.lastPromotion <= s.now && |s.queues[BACKGROUND]| <= k
    requires ticked.current.value.ticksUsed < NORMAL_QUANTUM || ticked.now < RescueTime(ticked, t)
    ensures NormalDeadline(ticked, t, k) <= NormalDeadline(s, t, k)
  {
    hide Blocking;
    var q := s.queues[BACKGROUND];
    if ticked.now >= t.readySince + STARVATION_LIMIT_TICKS {
      BlockingAtMost(q, NextRescue(ticked, t));
      if s.now >= t.readySince + STARVATION_LIMIT_TICKS {
        BlockingSooner(q, NextRescue(ticked, t), NextRescue(s, t));
      }
    }
  }

  lemma SwitchAfterTick(s: Sched, ticked: Sched, r: Sched, p: nat, t: Task, k: nat)
    requires Ticked(s, ticked) && QueuesOk(ticked) && s.lastPromotion <= s.now && At(ticked, NORMAL, p, t) && k <= SAFE_BACKGROUND
    requires Switched(ticked, r, NORMAL, p, t) && !Running(r, t)
    requires Choose(ticked).Take? ==> Grew(Popped(ticked), r.queues[BACKGROUND], ticked.now)
    requires |s.queues[BACKGROUND]| <= k && |r.queues[BACKGROUND]| <= k
    ensures NormalDeadline(r, t, k) + Turn(k) * Position(NORMAL, p, Choose(ticked).cls) <= NormalDeadline(s, t, k) + Turn(k) * p
  {
    hide Blocking, Choose, QueueOk, Grew, Switched;
    if ticked.now < RescueTime(ticked, t) {
      TickedInTime(s, ticked, t, k);
      SwitchInTime(ticked, r, p, t, k);
    } else if s.now < t.readySince + STARVATION_LIMIT_TICKS {
      RescuedInTime(ticked, r, p, t, k, ticked.now);
      BlockingAtMost(s.queues[BACKGROUND], ticked.now);
    } else {
      NextRescueBounds(s, t);
      RescuedInTime(ticked, r, p, t, k, NextRescue(s, t));
    }
  }

  /** A tick that does not switch finds the running task within a normal quantum. */
  lemma NoSwitchWithinQuantum(s: Sched, p: nat, t: Task)
    requires QueuesOk(s) && At(s, NORMAL, p, t) && s.current.Some? && !ShouldPreempt(s, s.current.value)
    requires s.lastPromotion <= s.now
    ensures s.current.value.ticksUsed < NORMAL_QUANTUM || s.now < RescueTime(s, t)
  {
    FrontIsOldest(s, NORMAL, p, t);
    assert ReadyClass(s, NORMAL);
    if s.now >= RescueTime(s, t) {
      assert StarvingClass(s, NORMAL);
    }
  }

  lemma NormalTick(s: Sched, ring3: bool, p: nat, t: Task, k: nat) returns (q: nat)
    requires Busy(s) && At(s, NORMAL, p, t) && k <= SAFE_BACKGROUND
    requires |s.queues[BACKGROUND]| <= k && |TickStep(s, ring3).queues[BACKGROUND]| <= k
    ensures
      var r := TickStep(s, ring3);
      && r.current.Some? && r.now == s.now + 1
      && (Running(r, t) || (At(r, NORMAL, q, t) && NormalDeadline(r, t, k) + Turn(k) * q <= NormalDeadline(s, t, k) + Turn(k) * p))
  {
    hide PlanSwitch, Choose, QueueOk, Promotions, Preempt, ShouldPreempt, NormalDeadline, Grew, Turn;
    var used := s.current.value.(ticksUsed := s.current.value.ticksUsed + 1);
    var ticked := s.(now := s.now + 1, current := Some(used));
    ApplyKeepsClock(s);
    assert QueuesOk(ticked);
    PreemptIs(s, ring3);
    q := p;
    if ShouldPreempt(ticked, used) {
      var r := PlanSwitch(ticked, Preemptive);
      PlanSwitches(ticked, Preemptive, NORMAL, p, t);
      PlanSwitchGrows(ticked, Preemptive);
      q := Position(NORMAL, p, Choose(ticked).cls);
      if !Running(r, t) {
        SwitchAfterTick(s, ticked, r, p, t, k);
      }
    } else {
      NoSwitchWithinQuantum(ticked, p, t);
      TickedInTime(s, ticked, t, k);
    }
  }

  /** No step lets the deadline slip while at most `k` background tasks are queued. */
  lemma NormalStep(s: Sched, step: Step, p: nat, t: Task, k: nat) returns (q: nat)
    requires Busy(s) && At(s, NORMAL, p, t) && Enabled(s, step) && k <= SAFE_BACKGROUND
    requires |s.queues[BACKGROUND]| <= k && |Apply(s, step).queues[BACKGROUND]| <= k
    ensures
      var r := Apply(s, step);
      && r.current.Some? && r.now <= s.now + 1
      && (Running(r, t) || (At(r, NORMAL, q, t) && NormalDeadline(r, t, k) + Turn(k) * q <= NormalDeadline(s, t, k) + Turn(k) * p))
  {
    hide PlanSwitch, Choose, QueueOk, Promotions, ExitStep, RunNext, TickStep, NormalDeadline, Grew, Turn, SpawnStep, SetClassStep;
    q := p;
    match step
    case Tick(ring3) =>
      q := NormalTick(s, ring3, p, t, k);
    case Yield(fromUser) =>
      var kind := if fromUser then VoluntaryFromUser else Voluntary;
      PlanSwitches(s, kind, NORMAL, p, t);
      PlanSwitchGrows(s, kind);
      q := Position(NORMAL, p, Choose(s).cls);
      if !Running(PlanSwitch(s, kind), t) {
        SwitchInTime(s, PlanSwitch(s, kind), p, t, k);
      }
    case Exit =>
      ExitSwitches(s, NORMAL, p, t);
      ExitGrows(s);
      q := Position(NORMAL, p, Choose(s).cls);
      if !Running(ExitStep(s), t) {
        SwitchInTime(s, ExitStep(s), p, t, k);
      }
    case Spawn(cls, framesLeft) =>
      SpawnInTime(s, cls, framesLeft, p, t, k);
    case SetClass(cls) =>
      SetClassInTime(s, cls, p, t, k);
  }

  lemma SpawnInTime(s: Sched, cls: SchedClass, framesLeft: bool, p: nat, t: Task, k: nat)
    requires Busy(s) && At(s, NORMAL, p, t) && k <= SAFE_BACKGROUND && |SpawnStep(s, cls, framesLeft).queues[BACKGROUND]| <= k
    ensures
      var r := SpawnStep(s, cls, framesLeft);
      r.current == s.current && r.now == s.now && At(r, NORMAL, p, t) && NormalDeadline(r, t, k) <= NormalDeadline(s, t, k)
  {
    hide QueueOk, Promotions, Blocking;
    var r := SpawnStep(s, cls, framesLeft);
    assert Grew(s.queues[BACKGROUND], r.queues[BACKGROUND], s.now);
    if s.now >= t.readySince + STARVATION_LIMIT_TICKS {
      NextRescueBounds(s, t);
      BlockingGrew(s.queues[BACKGROUND], r.queues[BACKGROUND], s.now, NextRescue(s, t));
    }
  }

  lemma SetClassInTime(s: Sched, cls: SchedClass, p: nat, t: Task, k: nat)
    requires Busy(s) && At(s, NORMAL, p, t)
    ensures
      var r := SetClassStep(s, cls);
      r.current.Some? && r.now == s.now && At(r, NORMAL, p, t) && NormalDeadline(r, t, k) == NormalDeadline(s, t, k)
  {
    hide QueueOk, Promotions, Blocking;
  }

  // --- Every run ----------------------------------------------------------------------------------

  /** At most `k` background tasks are queued in every state of the run. */
  ghost predicate AtMostQueued(s: Sched, steps: seq<Step>, k: nat)
    requires Shape(s)
  {
    forall n: nat | n <= |steps| :: |After(s, steps[..n]).queues[BACKGROUND]| <= k
  }

  /** `t` still waits at place `q`, no later than `deadline` allows. */
  predicate InTime(s: Sched, q: nat, t: Task, k: nat, deadline: nat) {
    Busy(s) && At(s, NORMAL, q, t) && NormalDeadline(s, t, k) + Turn(k) * q <= deadline
  }

  lemma {:induction false} NormalRun(s: Sched, steps: seq<Step>, p: nat, t: Task, k: nat, n: nat, deadline: nat) returns (q: nat)
    requires InTime(s, p, t, k, deadline)
    requires Legal(s, steps) && n <= |steps| && AtMostQueued(s, steps, k) && k <= SAFE_BACKGROUND
    ensures DispatchedBy(s, steps, t, deadline) || InTime(After(s, steps[..n]), q, t, k, deadline)
  {
    hide QueuesOk, RateLimited, Apply, Enabled, DispatchedBy, NormalDeadline, Turn;
    if n == 0 {
      return p;
    }
    q := NormalRun(s, steps, p, t, k, n - 1, deadline);
    var v := After(s, steps[..n - 1]);
    if !DispatchedBy(s, steps, t, deadline) {
      PrefixStep(s, steps, n - 1);
      NormalDeadlineBounds(v, t, k);
      var before := q;
      q := NormalStep(v, steps[n - 1], before, t, k);
      BusyStep(v, steps[n - 1]);
      if Running(After(s, steps[..n]), t) {
        TurnsPositive(k, before);
        DispatchedAt(s, steps, t, deadline, n);
      }
    }
  }

  lemma TurnsPositive(k: nat, p: nat)
    ensures Turn(k) * p >= 0
  {
  }

  /** Bounded wait for a normal task: while at most `k` background tasks are queued, for a `k` up to
      seven, a normal task with `p` ahead of it runs within 49 + 7 (k + 1) (p + 1) ticks of becoming
      ready, whatever else happens; if it was already overdue when the run started, within
      7 (k + 1) (p + 1) ticks of that. */
  lemma NormalWait(s: Sched, steps: seq<Step>, p: nat, t: Task, k: nat, deadline: nat)
    requires Busy(s) && At(s, NORMAL, p, t) && Legal(s, steps) && AtMostQueued(s, steps, k) && k <= SAFE_BACKGROUND
    requires deadline >= t.readySince + 49 + 7 * (k + 1) * (p + 1) && deadline >= s.now + 7 * (k + 1) * (p + 1)
    requires After(s, steps).now >= deadline
    ensures DispatchedBy(s, steps, t, deadline)
  {
    hide QueuesOk, RateLimited, Legal, After, DispatchedBy, NormalDeadline;
    assert steps[..0] == [] && steps[..|steps|] == steps;
    StartsHere(s);
    NormalDeadlineBounds(s, t, k);
    assert Turn(k) + Turn(k) * p == 7 * (k + 1) * (p + 1);
    var q := NormalRun(s, steps, p, t, k, |steps|, deadline);
    if !DispatchedBy(s, steps, t, deadline) {
      NormalDeadlineBounds(After(s, steps), t, k);
      TurnsPositive(k, q);
    }
  }

  lemma StartsHere(s: Sched)
    requires Shape(s)
    ensures After(s, []) == s
  {
  }
}
