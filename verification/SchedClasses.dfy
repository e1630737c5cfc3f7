/** Scheduling classes and the policy constants (kernel/src/sched/class.rs). */
module SchedClasses {

  datatype SchedClass = Background | Normal | Realtime {

    /** The discriminant, which indexes the ready queues; larger is more urgent. */
    function Rank(): nat {
      match this
      case Background => 0
      case Normal => 1
      case Realtime => 2
    }

    function QuantumTicks(): nat {
      match this
      case Background => 6
      case Normal => 3
      case Realtime => 1
    }
  }

  const BACKGROUND: nat := 0
  const NORMAL: nat := 1
  const REALTIME: nat := 2
  const CLASSES: nat := 3

  const STARVATION_LIMIT_TICKS: nat := 50
  const PROMOTION_INTERVAL_TICKS: nat := 5
  const LONGEST_QUANTUM: nat := 6

  datatype ClassStats = ClassStats(dispatches: nat, maxWaitTicks: nat, promotions: nat)
}
