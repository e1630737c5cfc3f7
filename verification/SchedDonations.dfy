/** The one-tick-in-five promise of kernel/src/sched/class.rs, and what the code keeps instead.

    The prose says that rescues cost the realtime class at most one tick in five. That holds of
    rescues made while another realtime task is queued. But `should_preempt` does not look at the
    promotion interval: a realtime task running alone gives way to any starving task, recorded or
    not, and gets the CPU back a tick later. In the long run it loses up to three ticks in five. */
module SchedDonations {
  import opened Options
  import opened SchedClasses
  import opened SchedModel
  import opened SchedInvariants
  import opened SchedBounds
  import opened SchedStarvation

  predicate LowerStarving(s: Sched)
    requires Shape(s)
  {
    StarvingClass(s, BACKGROUND) || StarvingClass(s, NORMAL)
  }

  /** A less urgent task runs while a realtime task is ready. */
  predicate Overtaken(s: Sched) {
    Shape(s) && s.current.Some? && !s.current.value.cls.Realtime? && s.queues[REALTIME] != []
  }

  function Counted(s: Sched): (r: Sched)
    requires Shape(s) && s.current.Some?
    ensures Shape(r) && r.current.Some?
  {
    s.(now := s.now + 1, current := Some(s.current.value.(ticksUsed := s.current.value.ticksUsed + 1)))
  }

  // --- One tick -------------------------------------------------------------------------------------

  lemma LowerIsAny(s: Sched)
    requires Shape(s)
    ensures LowerStarving(s) ==> AnyStarving(s)
  {
  }

  /** Who gets the CPU when a choice is made. */
  lemma ChosenClass(s: Sched)
    requires QueuesOk(s)
    ensures
      var ch := Choose(s);
      && (ch.Take? ==> ch.cls < CLASSES && s.queues[ch.cls] != [] && s.queues[ch.cls][0].cls.Rank() == ch.cls)
      && (s.queues[REALTIME] != [] ==> ch.Take? && (ch.cls != REALTIME <==> RescueAllowed(s) && LowerStarving(s))
                                       && (ch.promoted <==> ch.cls != REALTIME))
      && (s.queues[REALTIME] == [] && AnyStarving(s) ==> ch.Take? && ch.cls != REALTIME && LowerStarving(s))
      && (ch.Take? && ch.promoted ==> RescueAllowed(s))
  {
    var ch := Choose(s);
    if ch.Take? {
      assert QueueOk(s.queues[ch.cls], ch.cls, s.now);
    }
    if s.queues[REALTIME] != [] {
      assert ReadyClass(s, REALTIME);
    }
    if LowerStarving(s) {
      assert AnyStarving(s);
    }
  }

  /** The switch a choice leads to, as far as overtaking goes. */
  lemma SwitchOutcome(s: Sched, kind: SwitchKind)
    requires QueuesOk(s) && s.current.Some? && Choose(s).Take?
    ensures
      var r, ch := PlanSwitch(s, kind), Choose(s);
      && r.current.Some? && r.current.value.cls.Rank() == ch.cls && r.now == s.now
      && r.lastPromotion == (if ch.promoted then s.now else s.lastPromotion)
      && (r.queues[REALTIME] != [] <==>
          s.current.value.cls.Realtime? || (if ch.cls == REALTIME then |s.queues[REALTIME]| > 1 else s.queues[REALTIME] != []))
  {
    ChosenClass(s);
    hide Choose;
  }

  lemma ExitOutcome(s: Sched)
    requires QueuesOk(s) && s.current.Some?
    ensures
      var r, ch := ExitStep(s), Choose(s);
      && r.now == s.now && (ch.Nothing? ==> r.current.None? && r.lastPromotion == s.lastPromotion)
      && (ch.Take? ==>
            && r.current.Some? && r.current.value.cls.Rank() == ch.cls
            && r.lastPromotion == (if ch.promoted then s.now else s.lastPromotion)
            && (r.queues[REALTIME] != [] <==> if ch.cls == REALTIME then |s.queues[REALTIME]| > 1 else s.queues[REALTIME] != []))
  {
    ChosenClass(s);
    var parked := s.(current := None, zombie := s.current);
    ChooseIgnoresTasks(s, parked);
    hide Choose;
  }

  /** For any running task: when a tick leaves the realtime class overtaken, and whether that moved
      the promotion time. */
  lemma TickOvertakes(s: Sched, ring3: bool)
    requires QueuesOk(s) && s.current.Some?
    ensures
      var r, ticked := Apply(s, Tick(ring3)), Counted(s);
      && r.current.Some? && r.now == s.now + 1
      && (Overtaken(r) <==>
          LowerStarving(ticked) && (if s.queues[REALTIME] != [] then RescueAllowed(ticked) else s.current.value.cls.Realtime?))
      && (s.current.value.cls.Realtime? && !r.current.value.cls.Realtime? ==> Overtaken(r))
      && (s.queues[REALTIME] != [] && Overtaken(r) ==> r.lastPromotion == r.now)
      && (r.lastPromotion == s.lastPromotion || (r.lastPromotion == r.now && RescueAllowed(ticked)))
  {
    var ticked := Counted(s);
    ApplyKeepsClock(s);
    PreemptIs(s, ring3);
    ChosenClass(ticked);
    LowerIsAny(ticked);
    if s.queues[REALTIME] != [] {
      RealtimeAlwaysPreempts(ticked);
    }
    hide Choose, QueueOk;
    if ShouldPreempt(ticked, ticked.current.value) {
      if Choose(ticked).Take? {
        SwitchOutcome(ticked, Preemptive);
      } else {
        NothingChosen(ticked, Preemptive);
      }
      hide PlanSwitch;
    }
  }

  /** With a realtime task running, a tick takes the CPU from the realtime class exactly when a less
      urgent task starves and either no other realtime task is queued or a rescue is allowed. */
  lemma TickTakesRealtime(s: Sched, ring3: bool)
    requires QueuesOk(s) && s.current.Some? && s.current.value.cls.Realtime?
    ensures
      var r := Apply(s, Tick(ring3));
      && r.current.Some?
      && (!r.current.value.cls.Realtime? <==>
          LowerStarving(Counted(s)) && (s.queues[REALTIME] == [] || RescueAllowed(Counted(s))))
  {
    hide Apply, LowerStarving, QueueOk;
    TickOvertakes(s, ring3);
  }

  lemma NothingChosen(s: Sched, kind: SwitchKind)
    requires Shape(s) && Choose(s).Nothing?
    ensures PlanSwitch(s, kind) == s
  {
  }

  // --- One in five, while another realtime task is queued ---------------------------------------------

  /** A choice is made with a realtime task queued, and goes to a less urgent one. */
  predicate Donates(s: Sched, step: Step) {
    && Shape(s) && s.queues[REALTIME] != [] && s.current.Some? && (step.Tick? || step.Yield? || step.Exit?)
    && Overtaken(Apply(s, step))
  }

  lemma DonationIsRecorded(s: Sched, step: Step)
    requires QueuesOk(s) && RateLimited(s) && Donates(s, step)
    ensures
      var r := Apply(s, step);
      r.lastPromotion == r.now >= s.lastPromotion + PROMOTION_INTERVAL_TICKS
  {
    hide QueueOk, Promotions;
    ChosenClass(s);
    match step
    case Tick(ring3) =>
      TickOvertakes(s, ring3);
      ApplyKeepsRate(s, step);
      hide TickStep;
    case Yield(fromUser) =>
      SwitchOutcome(s, if fromUser then VoluntaryFromUser else Voluntary);
      hide PlanSwitch, Choose;
    case Exit =>
      ExitOutcome(s);
      hide ExitStep, Choose;
  }

  lemma {:induction false} PromotionTimeGrows(s: Sched, steps: seq<Step>, m: nat, n: nat)
    requires QueuesOk(s) && RateLimited(s) && Legal(s, steps) && m <= n <= |steps|
    ensures
      var u, v := After(s, steps[..m]), After(s, steps[..n]);
      QueuesOk(u) && RateLimited(u) && QueuesOk(v) && RateLimited(v) && u.lastPromotion <= v.lastPromotion && u.now <= v.now
    decreases n
  {
    hide QueueOk, Apply, Promotions;
    if n == 0 {
      assert steps[..0] == [];
    } else {
      PrefixStep(s, steps, n - 1);
      PromotionTimeGrows(s, steps, if m < n then m else n - 1, n - 1);
      var w := After(s, steps[..n - 1]);
      ApplyKeepsQueues(w, steps[n - 1]);
      ApplyKeepsRate(w, steps[n - 1]);
      ClockGrows(w, steps[n - 1]);
    }
  }

  lemma ClockGrows(s: Sched, step: Step)
    requires Shape(s)
    ensures s.now <= Apply(s, step).now <= s.now + 1
    ensures Apply(s, step).now == s.now + 1 <==> step.Tick?
  {
    hide Choose, ShouldPreempt;
  }

  /** Two donations made with another realtime task queued are at least five ticks apart, in every run
      and whatever happens between them. */
  lemma DonationsApart(s: Sched, steps: seq<Step>, i: nat, j: nat)
    requires QueuesOk(s) && RateLimited(s) && Legal(s, steps) && i < j < |steps|
    requires Donates(After(s, steps[..i]), steps[i]) && Donates(After(s, steps[..j]), steps[j])
    ensures After(s, steps[..j + 1]).now >= After(s, steps[..i + 1]).now + PROMOTION_INTERVAL_TICKS
  {
    hide QueueOk, Apply, Promotions, Overtaken;
    PrefixStep(s, steps, i);
    PrefixStep(s, steps, j);
    PromotionTimeGrows(s, steps, i, i);
    PromotionTimeGrows(s, steps, i + 1, j);
    DonationIsRecorded(After(s, steps[..i]), steps[i]);
    DonationIsRecorded(After(s, steps[..j]), steps[j]);
  }

  // --- Three in five, in every run ----------------------------------------------------------------------

  /** Ticks of a run, and those that a less urgent task spent while a realtime task was ready. */
  function Ticks(steps: seq<Step>): nat {
    if steps == [] then 0 else Ticks(steps[..|steps| - 1]) + if steps[|steps| - 1].Tick? then 1 else 0
  }

  function LostTicks(s: Sched, steps: seq<Step>): nat
    requires Shape(s)
  {
    if steps == [] then 0
    else
      var before := steps[..|steps| - 1];
      LostTicks(s, before) + if steps[|steps| - 1].Tick? && Overtaken(After(s, before)) then 1 else 0
  }

  /** A step that is not the realtime class's own doing: no realtime task arrives, yields or exits, no
      task changes class, and a task is running. */
  predicate Steady(s: Sched, step: Step) {
    && s.current.Some?
    && match step
       case Tick(_) => true
       case Spawn(cls, _) => !cls.Realtime?
       case Yield(_) => !s.current.value.cls.Realtime?
       case Exit => !s.current.value.cls.Realtime?
       case _ => false
  }

  function Disturbances(s: Sched, steps: seq<Step>): nat
    requires Shape(s)
  {
    if steps == [] then 0
    else
      var before := steps[..|steps| - 1];
      Disturbances(s, before) + if Steady(After(s, before), steps[|steps| - 1]) then 0 else 1
  }

  /** Ticks until a rescue is allowed. */
  function Wait(s: Sched): nat {
    SatSub(s.lastPromotion + PROMOTION_INTERVAL_TICKS, s.now)
  }

  /** What the realtime class can still lose beyond three ticks in five, in fifths. */
  function Slack(s: Sched): (r: nat)
    requires s.lastPromotion <= s.now
    ensures r <= 5
  {
    if Overtaken(s) then 5 - Wait(s) / 2
    else if Wait(s) == 0 then 2
    else 2 - (Wait(s) - 1) / 2
  }

  lemma SlackTick(s: Sched, ring3: bool)
    requires QueuesOk(s) && RateLimited(s) && s.current.Some?
    ensures
      var r := Apply(s, Tick(ring3));
      r.lastPromotion <= r.now && 5 * (if Overtaken(s) then 1 else 0) + Slack(r) <= 3 + Slack(s)
  {
    hide QueueOk, Promotions, Apply, LowerStarving;
    ApplyKeepsRate(s, Tick(ring3));
    TickOvertakes(s, ring3);
  }

  lemma SlackStep(s: Sched, step: Step)
    requires QueuesOk(s) && RateLimited(s) && !step.Tick? && Steady(s, step)
    ensures
      var r := Apply(s, step);
      r.lastPromotion <= r.now && Slack(r) <= Slack(s)
  {
    hide QueueOk, Promotions;
    ApplyKeepsRate(s, step);
    ChosenClass(s);
    match step
    case Spawn(cls, framesLeft) =>
    case Yield(fromUser) =>
      var kind := if fromUser then VoluntaryFromUser else Voluntary;
      if Choose(s).Take? {
        SwitchOutcome(s, kind);
      } else {
        NothingChosen(s, kind);
      }
      hide PlanSwitch, Choose;
    case Exit =>
      ExitOutcome(s);
      hide ExitStep, Choose;
  }

  /** In every run, the ticks lost to less urgent tasks are at most three in five, give or take one
      and one for each thing the realtime class or a change of class brings about itself. */
  lemma {:induction false} ThreeInFive(s: Sched, steps: seq<Step>)
    requires QueuesOk(s) && RateLimited(s) && Legal(s, steps)
    ensures
      var r := After(s, steps);
      && QueuesOk(r) && RateLimited(r)
      && 5 * LostTicks(s, steps) + Slack(r) <= 3 * Ticks(steps) + Slack(s) + 5 * Disturbances(s, steps)
    decreases |steps|
  {
    hide QueueOk, Promotions, Apply, Slack, Overtaken;
    if steps != [] {
      var before, step := steps[..|steps| - 1], steps[|steps| - 1];
      var u := After(s, before);
      ThreeInFive(s, before);
      ApplyKeepsQueues(u, step);
      ApplyKeepsRate(u, step);
      if step.Tick? && u.current.Some? {
        SlackTick(u, step.ring3);
      } else if Steady(u, step) {
        SlackStep(u, step);
      } else {
        NotOvertaken(u);
      }
    }
  }

  lemma NotOvertaken(s: Sched)
    ensures s.current.None? ==> !Overtaken(s)
  {
  }

  /** So of any `n` ticks at most 3 n / 5 + 1 are lost, when nothing but ticks, arrivals of less urgent
      tasks and their own yields and exits happens. */
  lemma SteadyShare(s: Sched, steps: seq<Step>)
    requires QueuesOk(s) && RateLimited(s) && Legal(s, steps) && Disturbances(s, steps) == 0
    ensures 5 * LostTicks(s, steps) <= 3 * Ticks(steps) + 5
  {
    ThreeInFive(s, steps);
  }

  // --- One in five, in every run that never leaves a realtime task alone ---------------------------------

  /** Every tick of the run finds a realtime task queued. */
  ghost predicate NeverAlone(s: Sched, steps: seq<Step>)
    requires Shape(s)
  {
    forall n: nat | n < |steps| && steps[n].Tick? :: After(s, steps[..n]).queues[REALTIME] != []
  }

  /** What the realtime class can still lose beyond one tick in five, in fifths. */
  function TightSlack(s: Sched): (r: nat)
    requires s.lastPromotion <= s.now
    ensures r <= 8
  {
    var wait := if Wait(s) == 0 then 1 else Wait(s);
    if Overtaken(s) then 9 - wait else SatSub(4, wait)
  }

  lemma TightSlackTick(s: Sched, ring3: bool)
    requires QueuesOk(s) && RateLimited(s) && s.current.Some? && s.queues[REALTIME] != []
    ensures
      var r := Apply(s, Tick(ring3));
      r.lastPromotion <= r.now && 5 * (if Overtaken(s) then 1 else 0) + TightSlack(r) <= 1 + TightSlack(s)
  {
    hide QueueOk, Promotions, Apply, LowerStarving;
    ApplyKeepsRate(s, Tick(ring3));
    TickOvertakes(s, ring3);
  }

  lemma TightSlackStep(s: Sched, step: Step)
    requires QueuesOk(s) && RateLimited(s) && !step.Tick? && Steady(s, step)
    ensures
      var r := Apply(s, step);
      r.lastPromotion <= r.now && TightSlack(r) <= TightSlack(s)
  {
    hide QueueOk, Promotions;
    ApplyKeepsRate(s, step);
    ChosenClass(s);
    match step
    case Spawn(cls, framesLeft) =>
    case Yield(fromUser) =>
      var kind := if fromUser then VoluntaryFromUser else Voluntary;
      if Choose(s).Take? {
        SwitchOutcome(s, kind);
      } else {
        NothingChosen(s, kind);
      }
      hide PlanSwitch, Choose;
    case Exit =>
      ExitOutcome(s);
      hide ExitStep, Choose;
  }

  /** The promise, where it holds: in every run whose every tick finds a realtime task queued, the
      ticks lost are at most one in five, give or take less than two and as much for each disturbance. */
  lemma {:induction false} OneInFive(s: Sched, steps: seq<Step>)
    requires QueuesOk(s) && RateLimited(s) && Legal(s, steps) && NeverAlone(s, steps)
    ensures
      var r := After(s, steps);
      && QueuesOk(r) && RateLimited(r)
      && 5 * LostTicks(s, steps) + TightSlack(r) <= Ticks(steps) + TightSlack(s) + 8 * Disturbances(s, steps)
    decreases |steps|
  {
    hide QueueOk, Promotions, Apply, TightSlack, Overtaken;
    if steps != [] {
      var before, step := steps[..|steps| - 1], steps[|steps| - 1];
      var u := After(s, before);
      assert NeverAlone(s, before) by {
        forall n: nat | n < |before| && before[n].Tick? ensures After(s, before[..n]).queues[REALTIME] != [] {
          assert before[..n] == steps[..n] && before[n] == steps[n];
        }
      }
      OneInFive(s, before);
      ApplyKeepsQueues(u, step);
      ApplyKeepsRate(u, step);
      if step.Tick? && u.current.Some? {
        TightSlackTick(u, step.ring3);
      } else if Steady(u, step) {
        TightSlackStep(u, step);
      } else {
        NotOvertaken(u);
      }
    }
  }

  // --- And three in five is reached ---------------------------------------------------------------------

  /** The i-th background task will have waited long enough when its turn comes, at three turns in five
      ticks and with `taken` turns over since the last recorded rescue. */
  predicate RipeInTurn(s: Sched, taken: nat)
    requires Shape(s)
  {
    forall i | 0 <= i < |s.queues[BACKGROUND]| ::
      s.queues[BACKGROUND][i].readySince + STARVATION_LIMIT_TICKS <= s.lastPromotion + 2 + 5 * (i + taken) / 3
  }

  /** `k` ticks into the five-tick beat: one realtime task and thirty-one background tasks take turns. */
  predicate Beat(s: Sched, k: nat) {
    && QueuesOk(s) && !s.halted && s.current.Some? && s.now == s.lastPromotion + k && k < 5 && s.queues[NORMAL] == []
    && (if k % 2 == 0 then
          s.current.value.cls.Background? && |s.queues[BACKGROUND]| == 30 && |s.queues[REALTIME]| == 1
        else
          s.current.value.cls.Realtime? && |s.queues[BACKGROUND]| == 31 && s.queues[REALTIME] == [])
    && RipeInTurn(s, k / 2)
  }

  /** While a background task runs and no rescue is allowed: the realtime task gets the CPU back. */
  lemma BeatReturns(s: Sched, k: nat)
    requires Beat(s, k) && (k == 0 || k == 2)
    ensures Beat(Apply(s, Tick(false)), k + 1)
  {
    hide QueueOk;
    ApplyKeepsQueues(s, Tick(false));
    ApplyKeepsClock(s);
    PreemptIs(s, false);
    var ticked := Counted(s);
    RealtimeAlwaysPreempts(ticked);
    FrontsOldest(ticked);
    assert ReadyClass(ticked, REALTIME);
    assert Choose(ticked) == Take(REALTIME, false);
  }

  /** While the realtime task runs alone: a starving task takes the CPU, and nothing is recorded. */
  lemma BeatTakes(s: Sched, k: nat)
    requires Beat(s, k) && (k == 1 || k == 3)
    ensures Beat(Apply(s, Tick(false)), k + 1)
  {
    hide QueueOk;
    ApplyKeepsQueues(s, Tick(false));
    ApplyKeepsClock(s);
    PreemptIs(s, false);
    var ticked := Counted(s);
    FrontsOldest(ticked);
    assert StarvingClass(ticked, BACKGROUND);
    assert Choose(ticked) == Take(BACKGROUND, false);
  }

  /** While a background task runs and a rescue is allowed: the next background task is rescued. */
  lemma BeatRescues(s: Sched)
    requires Beat(s, 4)
    ensures Beat(Apply(s, Tick(false)), 0)
  {
    hide QueueOk;
    ApplyKeepsQueues(s, Tick(false));
    ApplyKeepsClock(s);
    PreemptIs(s, false);
    var ticked := Counted(s);
    RealtimeAlwaysPreempts(ticked);
    FrontsOldest(ticked);
    assert StarvingClass(ticked, BACKGROUND);
    assert ReadyClass(ticked, REALTIME);
    assert Choose(ticked) == Take(BACKGROUND, true);
  }

  lemma BeatTick(s: Sched, k: nat)
    requires Beat(s, k)
    ensures Beat(Apply(s, Tick(false)), (k + 1) % 5)
    ensures Overtaken(s) <==> k % 2 == 0
  {
    hide Apply, QueueOk;
    if k == 4 {
      BeatRescues(s);
    } else if k % 2 == 0 {
      BeatReturns(s, k);
    } else {
      BeatTakes(s, k);
    }
  }

  /** Three of every five ticks, the first, third and fifth. */
  function BeatLoss(n: nat): nat {
    3 * (n / 5) + (n % 5 + 1) / 2
  }

  lemma NoLoss()
    ensures BeatLoss(0) == 0
  {
  }

  lemma BeatLossStep(n: nat)
    ensures BeatLoss(n + 1) == BeatLoss(n) + (if n % 5 % 2 == 0 then 1 else 0)
    ensures (n % 5 + 1) % 5 == (n + 1) % 5
    ensures 3 * n <= 5 * BeatLoss(n) + 2 && 5 * BeatLoss(n) <= 3 * n + 2
  {
  }

  lemma {:induction false} BeatsLose(s: Sched, n: nat)
    requires Beat(s, 0)
    ensures Legal(s, Repeat(Tick(false), n)) && Beat(After(s, Repeat(Tick(false), n)), n % 5)
    ensures LostTicks(s, Repeat(Tick(false), n)) == BeatLoss(n)
    ensures Ticks(Repeat(Tick(false), n)) == n && Disturbances(s, Repeat(Tick(false), n)) == 0
  {
    hide Apply, QueueOk, RipeInTurn, Overtaken, BeatLoss;
    if n == 0 {
      NoLoss();
    } else {
      BeatLossStep(n - 1);
      BeatsLose(s, n - 1);
      var before := Repeat(Tick(false), n - 1);
      assert Repeat(Tick(false), n)[..n - 1] == before;
      BeatTick(After(s, before), (n - 1) % 5);
    }
  }

  /** One realtime task runs, and nobody has waited 50 ticks yet. */
  predicate Alone(s: Sched) {
    && QueuesOk(s) && !s.halted && s.now < STARVATION_LIMIT_TICKS && s.lastPromotion == 0
    && s.current.Some? && s.current.value.cls.Realtime?
    && |s.queues[BACKGROUND]| == 31 && s.queues[NORMAL] == [] && s.queues[REALTIME] == []
    && (forall i | 0 <= i < 31 :: s.queues[BACKGROUND][i].readySince == 0)
  }

  /** The first two ticks lost: one not recorded, and at once one that is. */
  predicate FirstTaken(s: Sched) {
    && QueuesOk(s) && !s.halted && s.now == STARVATION_LIMIT_TICKS && s.lastPromotion == 0
    && s.current.Some? && s.current.value.cls.Background?
    && |s.queues[BACKGROUND]| == 30 && s.queues[NORMAL] == [] && |s.queues[REALTIME]| == 1
    && (forall i | 0 <= i < 30 :: s.queues[BACKGROUND][i].readySince == 0)
  }

  lemma AloneTick(s: Sched)
    requires Alone(s)
    ensures
      var r := Apply(s, Tick(false));
      r.now == s.now + 1 && if r.now < STARVATION_LIMIT_TICKS then Alone(r) else FirstTaken(r)
  {
    hide QueueOk;
    ApplyKeepsQueues(s, Tick(false));
    ApplyKeepsClock(s);
    PreemptIs(s, false);
    var ticked := Counted(s);
    FrontsOldest(ticked);
    if ticked.now == STARVATION_LIMIT_TICKS {
      assert StarvingClass(ticked, BACKGROUND);
      assert Choose(ticked) == Take(BACKGROUND, false);
    }
  }

  lemma SecondTaken(s: Sched)
    requires FirstTaken(s)
    ensures Beat(Apply(s, Tick(false)), 0)
  {
    hide QueueOk;
    ApplyKeepsQueues(s, Tick(false));
    ApplyKeepsClock(s);
    PreemptIs(s, false);
    var ticked := Counted(s);
    RealtimeAlwaysPreempts(ticked);
    FrontsOldest(ticked);
    assert StarvingClass(ticked, BACKGROUND);
    assert ReadyClass(ticked, REALTIME);
    assert Choose(ticked) == Take(BACKGROUND, true);
  }

  lemma {:induction false} AloneTicks(s: Sched, n: nat)
    requires Alone(s) && s.now == 0 && n <= STARVATION_LIMIT_TICKS
    ensures Legal(s, Repeat(Tick(false), n))
    ensures
      var r := After(s, Repeat(Tick(false), n));
      r.now == n && if n < STARVATION_LIMIT_TICKS then Alone(r) else FirstTaken(r)
  {
    hide Apply, QueueOk;
    if n > 0 {
      AloneTicks(s, n - 1);
      assert Repeat(Tick(false), n)[..n - 1] == Repeat(Tick(false), n - 1);
      AloneTick(After(s, Repeat(Tick(false), n - 1)));
    }
  }

  function BeatSetup(): seq<Step> {
    Repeat(Spawn(Realtime, true), 1) + Repeat(Spawn(Background, true), 31) + [RunUntilIdle] + Repeat(Tick(false), 50) + [Tick(false)]
  }

  lemma BootAlone(s: Sched)
    requires Booting(s, 31, 0, 1)
    ensures Enabled(s, RunUntilIdle) && Alone(Apply(s, RunUntilIdle)) && Apply(s, RunUntilIdle).now == 0
  {
    ApplyKeepsQueues(s, RunUntilIdle);
    FrontsOldest(s);
    AllReadyAtZero(s);
    hide QueueOk;
    assert ReadyClass(s, 2);
  }

  lemma BeatBooted() returns (s: Sched)
    ensures Legal(INITIAL, BeatSetup()) && s == After(INITIAL, BeatSetup()) && Beat(s, 0)
  {
    hide Apply, QueueOk, Enabled, Beat;
    var realtime := Repeat(Spawn(Realtime, true), 1);
    var background := Repeat(Spawn(Background, true), 31);
    BootStart();
    SpawnMany(INITIAL, Realtime, 1, 0, 0, 0);
    var s1 := After(INITIAL, realtime);
    SpawnMany(s1, Background, 31, 0, 0, 1);
    AfterConcat(INITIAL, realtime, background);
    var s2 := After(s1, background);
    BootAlone(s2);
    AfterOne(s2, RunUntilIdle);
    AfterConcat(INITIAL, realtime + background, [RunUntilIdle]);
    var s3 := Apply(s2, RunUntilIdle);
    AloneTicks(s3, 50);
    AfterConcat(INITIAL, realtime + background + [RunUntilIdle], Repeat(Tick(false), 50));
    var s4 := After(s3, Repeat(Tick(false), 50));
    SecondTaken(s4);
    CanTick(s4);
    AfterOne(s4, Tick(false));
    AfterConcat(INITIAL, realtime + background + [RunUntilIdle] + Repeat(Tick(false), 50), [Tick(false)]);
    s := Apply(s4, Tick(false));
  }

  lemma CanTick(s: Sched)
    requires FirstTaken(s)
    ensures Enabled(s, Tick(false))
  {
  }

  /** From a reachable state, and by the timer alone, the realtime class loses three ticks in five for
      ever: the bound of `ThreeInFive` cannot be improved, and one in five does not hold. */
  lemma ThreeInFiveForever(n: nat) returns (s: Sched)
    ensures Legal(INITIAL, BeatSetup()) && s == After(INITIAL, BeatSetup())
    ensures
      var steps := Repeat(Tick(false), n);
      && Legal(s, steps) && Ticks(steps) == n && Disturbances(s, steps) == 0
      && 3 * n <= 5 * LostTicks(s, steps) + 2 && 5 * LostTicks(s, steps) <= 3 * n + 2
  {
    hide QueueOk, RipeInTurn, BeatLoss, Legal, After, LostTicks, Ticks, Disturbances;
    s := BeatBooted();
    BeatsLose(s, n);
    BeatLossStep(n);
  }
}
