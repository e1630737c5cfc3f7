/** Turns among peers: a quantum ends exactly when it should, and peers share the CPU round robin. */
module SchedTurns {
  import opened Options
  import opened SchedClasses
  import opened KernelStacks
  import opened SchedModel
  import opened SchedInvariants
  import opened SchedBounds
  import opened SchedStarvation
  import opened SchedDonations

  /** How many ticks a class may hold the CPU against a peer. */
  function TicksPerTurn(cls: SchedClass): (q: nat)
    ensures q >= 1
  {
    match cls
    case Realtime => 1
    case Normal => 3
    case Background => 6
  }

  /** Nothing of a higher class is queued, and nobody will have starved at the next tick. */
  predicate Calm(s: Sched)
    requires Shape(s) && s.current.Some?
  {
    && (forall d: nat | s.current.value.cls.Rank() < d < CLASSES :: s.queues[d] == [])
    && !AnyStarving(Counted(s))
  }

  /** The front of class `c` runs, and the task that ran until now is last in its own queue. */
  predicate Handed(s: Sched, r: Sched, c: nat)
    requires Shape(s) && s.current.Some? && c < CLASSES && s.queues[c] != []
  {
    var t, left := s.current.value, s.queues[c := s.queues[c][1..]];
    && Shape(r) && r.current == Some(s.queues[c][0].(promoted := false, ticksUsed := 0))
    && r.queues == left[t.cls.Rank() := left[t.cls.Rank()] + [t.(readySince := r.now, promoted := false, ticksUsed := 0)]]
  }

  /** The end of a turn: a tick hands the CPU to the front peer exactly when the running task has had
      its class's ticks, one if it was promoted; until then it keeps the CPU, one tick further on. */
  lemma TurnEnds(s: Sched, ring3: bool)
    requires QueuesOk(s) && s.current.Some? && s.queues[s.current.value.cls.Rank()] != [] && Calm(s)
    ensures
      var t := s.current.value;
      var r := Apply(s, Tick(ring3));
      && r.now == s.now + 1
      && (Handed(s, r, t.cls.Rank()) <==> t.ticksUsed + 1 >= if t.promoted then 1 else TicksPerTurn(t.cls))
      && (t.ticksUsed + 1 < (if t.promoted then 1 else TicksPerTurn(t.cls)) ==> r == Counted(s))
      && r.lastPromotion == s.lastPromotion && r.halted == s.halted
  {
    hide QueueOk;
    PreemptIs(s, ring3);
    var ticked, c := Counted(s), s.current.value.cls.Rank();
    FrontsOldest(s);
    assert !HigherWaiting(ticked, c);
    if ShouldPreempt(ticked, ticked.current.value) {
      ChoosesPeer(ticked);
    }
  }

  /** With nothing starving, the choice is the front of the highest class queued. */
  lemma ChoosesPeer(s: Sched)
    requires Shape(s) && s.current.Some? && !AnyStarving(s)
    requires s.queues[s.current.value.cls.Rank()] != []
    requires forall d: nat | s.current.value.cls.Rank() < d < CLASSES :: s.queues[d] == []
    ensures Choose(s) == Take(s.current.value.cls.Rank(), false)
  {
    var c := s.current.value.cls.Rank();
    assert ReadyClass(s, c);
    LowestIsStarving(s);
  }

  lemma LowestIsStarving(s: Sched)
    requires Shape(s)
    ensures LowestStarving(s) < CLASSES ==> AnyStarving(s)
  {
    assert forall c: nat | c < CLASSES && StarvingClass(s, c) :: AnyStarving(s);
  }

  /** A more urgent task does not wait for the turn to end. */
  lemma UrgentTakesOver(s: Sched, ring3: bool, c: nat)
    requires QueuesOk(s) && s.current.Some? && s.current.value.cls.Rank() < c < CLASSES && s.queues[c] != []
    requires forall d: nat | c < d < CLASSES :: s.queues[d] == []
    requires !AnyStarving(Counted(s)) || !RescueAllowed(Counted(s))
    ensures Handed(s, Apply(s, Tick(ring3)), c)
  {
    hide QueueOk;
    PreemptIs(s, ring3);
    var ticked := Counted(s);
    FrontsOldest(s);
    assert ReadyClass(ticked, c);
    LowestIsStarving(ticked);
    assert Choose(ticked) == Take(c, false);
  }

  /** A yield gives the CPU away at once, and an exit does too: to the front of the highest class queued,
      unless a rescue is due. */
  lemma YieldHandsOver(s: Sched, fromUser: bool, c: nat)
    requires Shape(s) && s.current.Some? && c < CLASSES && s.queues[c] != [] && forall d: nat | c < d < CLASSES :: s.queues[d] == []
    requires !AnyStarving(s) || !RescueAllowed(s)
    ensures Handed(s, Apply(s, Yield(fromUser)), c)
    ensures Apply(s, Exit).current == Some(s.queues[c][0].(promoted := false, ticksUsed := 0))
    ensures Apply(s, Exit).zombie == s.current && Apply(s, Exit).queues == s.queues[c := s.queues[c][1..]]
  {
    HighestIsChosen(s, c);
    HighestIsChosen(s.(current := None, zombie := s.current), c);
    hide Choose;
  }

  lemma HighestIsChosen(s: Sched, c: nat)
    requires Shape(s) && c < CLASSES && s.queues[c] != [] && forall d: nat | c < d < CLASSES :: s.queues[d] == []
    requires !AnyStarving(s) || !RescueAllowed(s)
    ensures Choose(s) == Take(c, false)
  {
    assert ReadyClass(s, c);
    LowestIsStarving(s);
  }

  /** With nobody else ready a yield changes nothing. */
  lemma LoneYield(s: Sched, fromUser: bool)
    requires Shape(s) && s.queues[0] == [] && s.queues[1] == [] && s.queues[2] == []
    ensures Apply(s, Yield(fromUser)) == s
  {
  }

  /** Will the front of class `d` have waited half a second at the next tick? */
  predicate HalfSecond(s: Sched, d: nat)
    requires Shape(s) && d < CLASSES
  {
    s.queues[d] != [] && s.now + 1 >= s.queues[d][0].readySince + 50
  }

  predicate PassesOver(s: Sched, c: nat)
    requires Shape(s)
  {
    exists d: nat | c < d < CLASSES :: s.queues[d] != []
  }

  /** When a turn ends and the last promotion is five ticks ago, the lowest class whose front has waited
      fifty ticks gets the CPU, as a promotion if that passes over a higher class. */
  lemma StarvedIsServed(s: Sched, ring3: bool, c: nat)
    requires QueuesOk(s) && s.current.Some? && c < CLASSES && HalfSecond(s, c)
    requires forall d: nat | d < c :: !HalfSecond(s, d)
    requires s.lastPromotion + 5 <= s.now + 1
    requires s.current.value.ticksUsed + 1 >= if s.current.value.promoted then 1 else TicksPerTurn(s.current.value.cls)
    ensures
      var r, over := Apply(s, Tick(ring3)), PassesOver(s, c);
      && r.current == Some(s.queues[c][0].(promoted := over, ticksUsed := 0))
      && r.lastPromotion == if over then s.now + 1 else s.lastPromotion
  {
    hide QueuesOk, Apply, PlanSwitch, Choose, HalfSecond, PassesOver, TicksPerTurn;
    StarvedIsChosen(s, c);
    Switches(s, ring3, c);
    SwitchesTo(Counted(s), c, PassesOver(s, c));
  }

  lemma Switches(s: Sched, ring3: bool, c: nat)
    requires Shape(s) && s.current.Some? && StarvingClass(Counted(s), c)
    requires s.current.value.ticksUsed + 1 >= if s.current.value.promoted then 1 else TicksPerTurn(s.current.value.cls)
    ensures Apply(s, Tick(ring3)) == PlanSwitch(Counted(s), Preemptive)
  {
    hide PlanSwitch, StarvingClass, HigherWaiting;
    PreemptIs(s, ring3);
    var ticked := Counted(s);
    TurnIsOver(ticked, c);
  }

  lemma TurnIsOver(s: Sched, c: nat)
    requires Shape(s) && s.current.Some? && StarvingClass(s, c)
    requires s.current.value.ticksUsed >= if s.current.value.promoted then 1 else TicksPerTurn(s.current.value.cls)
    ensures ShouldPreempt(s, s.current.value)
  {
    assert c < CLASSES;
    hide HigherWaiting, StarvingClass;
  }

  lemma SwitchesTo(s: Sched, c: nat, over: bool)
    requires Shape(s) && s.current.Some? && Choose(s) == Take(c, over)
    ensures c < CLASSES && s.queues[c] != []
    ensures PlanSwitch(s, Preemptive).current == Some(s.queues[c][0].(promoted := over, ticksUsed := 0))
    ensures PlanSwitch(s, Preemptive).lastPromotion == if over then s.now else s.lastPromotion
  {
    assert ReadyClass(s, c);
    hide Choose;
  }

  lemma StarvedIsChosen(s: Sched, c: nat)
    requires QueuesOk(s) && s.current.Some? && c < CLASSES && HalfSecond(s, c)
    requires forall d: nat | d < c :: !HalfSecond(s, d)
    requires s.lastPromotion + 5 <= s.now + 1
    ensures Choose(Counted(s)) == Take(c, PassesOver(s, c))
    ensures StarvingClass(Counted(s), c)
  {
    hide QueueOk;
    FrontsOldest(s);
    var ticked := Counted(s);
    assert forall d: nat | d < CLASSES :: StarvingClass(ticked, d) <==> HalfSecond(s, d);
    hide HalfSecond;
    assert StarvingClass(ticked, c) && forall d: nat | d < c :: !StarvingClass(ticked, d);
    assert LowestStarving(ticked) == c;
    assert forall d: nat | c < d < CLASSES :: ReadyClass(ticked, d) <==> s.queues[d] != [];
    assert HigherWaiting(ticked, c) <==> PassesOver(s, c);
  }

  /** With nobody to hand over to, the running task keeps the CPU however long it has had it. */
  lemma AloneKeepsRunning(s: Sched, ring3: bool)
    requires Shape(s) && s.current.Some? && s.queues[s.current.value.cls.Rank()] == [] && Calm(s)
    ensures Apply(s, Tick(ring3)) == Counted(s)
  {
    PreemptIs(s, ring3);
  }

  // --- Round robin ----------------------------------------------------------------------------------

  function Ids(q: seq<Task>): (r: seq<nat>)
    ensures |r| == |q| && forall i | 0 <= i < |r| :: r[i] == q[i].id
  {
    seq(|q|, i requires 0 <= i < |q| => q[i].id)
  }

  /** The tasks of `ring`, in turn order, are the only ones; the first runs and has used `used` ticks;
      none will have waited 50 ticks when its turn comes. */
  predicate Round(s: Sched, cls: SchedClass, ring: seq<nat>, used: nat) {
    && QueuesOk(s) && !s.halted && s.current.Some? && s.current.value.cls == cls && !s.current.value.promoted
    && s.current.value.ticksUsed == used < TicksPerTurn(cls)
    && (forall d: nat | d < CLASSES && d != cls.Rank() :: s.queues[d] == [])
    && var q := s.queues[cls.Rank()];
       && q != [] && ring == [s.current.value.id] + Ids(q) && |q| * TicksPerTurn(cls) < STARVATION_LIMIT_TICKS
       && forall i | 0 <= i < |q| ::
            q[i].readySince + STARVATION_LIMIT_TICKS > s.now - used + (i + 1) * TicksPerTurn(cls)
  }

  lemma RoundIsCalm(s: Sched, cls: SchedClass, ring: seq<nat>, used: nat)
    requires Round(s, cls, ring, used)
    ensures Calm(s)
  {
    var q := s.queues[cls.Rank()];
    assert q[0].readySince + STARVATION_LIMIT_TICKS > s.now - used + (0 + 1) * TicksPerTurn(cls);
  }

  function Rotated(ring: seq<nat>): seq<nat>
    requires ring != []
  {
    ring[1..] + [ring[0]]
  }

  lemma RoundTick(s: Sched, cls: SchedClass, ring: seq<nat>, used: nat)
    requires Round(s, cls, ring, used)
    ensures
      var r := Apply(s, Tick(false));
      && r.now == s.now + 1
      && (if used + 1 < TicksPerTurn(cls) then Round(r, cls, ring, used + 1) else Round(r, cls, Rotated(ring), 0))
  {
    hide QueueOk, Apply, Calm;
    RoundIsCalm(s, cls, ring, used);
    TurnEnds(s, false);
    ApplyKeepsQueues(s, Tick(false));
    if used + 1 >= TicksPerTurn(cls) {
      HandedOn(s, Apply(s, Tick(false)), cls, ring, used);
    }
  }

  lemma HandedOn(s: Sched, r: Sched, cls: SchedClass, ring: seq<nat>, used: nat)
    requires Round(s, cls, ring, used) && used + 1 == TicksPerTurn(cls) && QueuesOk(r)
    requires Handed(s, r, cls.Rank()) && r.now == s.now + 1 && !r.halted
    ensures Round(r, cls, Rotated(ring), 0)
  {
    hide QueueOk;
    FrontsOldest(s);
    var c, turn := cls.Rank(), TicksPerTurn(cls);
    var q, q' := s.queues[c], r.queues[c];
    forall i | 0 <= i < |q'| ensures q'[i].readySince + STARVATION_LIMIT_TICKS > r.now + (i + 1) * turn {
      if i < |q| - 1 {
        assert q'[i] == q[i + 1];
        assert q[i + 1].readySince + STARVATION_LIMIT_TICKS > s.now - used + (i + 1 + 1) * turn;
        assert (i + 1 + 1) * turn == (i + 1) * turn + turn;
      } else {
        assert (i + 1) * turn == |q| * turn;
      }
    }
    assert Ids(q') == Ids(q)[1..] + [s.current.value.id];
    assert Rotated(ring) == [r.current.value.id] + Ids(q');
    RankOfFront(s, c);
  }

  lemma RankOfFront(s: Sched, c: nat)
    requires QueuesOk(s) && c < CLASSES && s.queues[c] != []
    ensures s.queues[c][0].cls.Rank() == c
  {
    assert QueueOk(s.queues[c], c, s.now);
  }

  function Turned(ring: seq<nat>, n: nat): (r: seq<nat>)
    requires ring != []
    ensures |r| == |ring|
  {
    if n == 0 then ring else Rotated(Turned(ring, n - 1))
  }

  lemma {:induction false} TurnedAt(ring: seq<nat>, n: nat, i: nat)
    requires i < |ring|
    ensures Turned(ring, n)[i] == ring[(i + n) % |ring|]
    decreases n
  {
    if n > 0 {
      var k := |ring|;
      if i + 1 < k {
        TurnedAt(ring, n - 1, i + 1);
      } else {
        TurnedAt(ring, n - 1, 0);
        WrapsAround(n - 1, k);
      }
    }
  }

  lemma WrapsAround(n: nat, k: nat)
    requires k > 0
    ensures (k - 1 + (n + 1)) % k == (0 + n) % k
  {
    assert k + n == k * 1 + n;
    ModPlus(n, k);
  }

  lemma ModPlus(n: nat, k: nat)
    requires k > 0
    ensures (k + n) % k == n % k
  {
    var q, r := n / k, n % k;
    assert n == q * k + r;
    assert k + n == (q + 1) * k + r;
    UniqueRemainder(k + n, k, q + 1, r);
  }

  lemma UniqueRemainder(n: nat, k: nat, q: nat, r: nat)
    requires k > 0 && n == q * k + r && r < k
    ensures n % k == r
  {
    var q', r' := n / k, n % k;
    assert n == q' * k + r';
    Scaled(q' + 1, q, k);
    Scaled(q + 1, q', k);
  }

  lemma Scaled(a: nat, b: nat, k: nat)
    ensures a <= b ==> a * k <= b * k
  {
  }

  lemma {:induction false} Rounds(s: Sched, cls: SchedClass, ring: seq<nat>, n: nat)
    requires Round(s, cls, ring, 0)
    ensures Legal(s, Repeat(Tick(false), n))
    ensures Round(After(s, Repeat(Tick(false), n)), cls, Turned(ring, n / TicksPerTurn(cls)), n % TicksPerTurn(cls))
    decreases n
  {
    hide Round, Apply, Turned, TicksPerTurn;
    RoundFacts(s, cls, ring, 0);
    if n == 0 {
      StartOfRing(ring);
    } else {
      Rounds(s, cls, ring, n - 1);
      var before, turn := Repeat(Tick(false), n - 1), TicksPerTurn(cls);
      assert Repeat(Tick(false), n)[..n - 1] == before;
      RoundFacts(After(s, before), cls, Turned(ring, (n - 1) / turn), (n - 1) % turn);
      RoundTick(After(s, before), cls, Turned(ring, (n - 1) / turn), (n - 1) % turn);
      TurnOn(ring, (n - 1) / turn);
      NextTick(n - 1, cls);
    }
  }

  lemma RoundFacts(s: Sched, cls: SchedClass, ring: seq<nat>, used: nat)
    requires Round(s, cls, ring, used)
    ensures Shape(s) && !s.halted && s.current.Some? && s.current.value.ticksUsed == used
    ensures ring != [] && s.current.value.id == ring[0]
  {
  }

  lemma StartOfRing(ring: seq<nat>)
    requires ring != []
    ensures Turned(ring, 0) == ring
  {
  }

  lemma TurnOn(ring: seq<nat>, n: nat)
    requires ring != []
    ensures Turned(ring, n + 1) == Rotated(Turned(ring, n))
  {
  }

  lemma NextTick(n: nat, cls: SchedClass)
    ensures
      var q := TicksPerTurn(cls);
      if n % q + 1 < q then (n + 1) / q == n / q && (n + 1) % q == n % q + 1
      else (n + 1) / q == n / q + 1 && (n + 1) % q == 0
  {
  }

  /** Round robin: tasks of one class, alone on the machine and few enough that none starves between
      its turns, hold the CPU in queue order for exactly 1, 3 or 6 ticks each, for ever. */
  lemma RoundRobin(s: Sched, cls: SchedClass, ring: seq<nat>, n: nat)
    requires Round(s, cls, ring, 0)
    ensures
      var r := After(s, Repeat(Tick(false), n));
      && Legal(s, Repeat(Tick(false), n)) && r.current.Some?
      && r.current.value.id == ring[n / TicksPerTurn(cls) % |ring|]
      && r.current.value.ticksUsed == n % TicksPerTurn(cls)
  {
    hide Round, Turned, TicksPerTurn, After, Legal;
    RoundFacts(s, cls, ring, 0);
    Rounds(s, cls, ring, n);
    RoundFacts(After(s, Repeat(Tick(false), n)), cls, Turned(ring, n / TicksPerTurn(cls)), n % TicksPerTurn(cls));
    TurnedAt(ring, n / TicksPerTurn(cls), 0);
  }
}
