/** Kernel stack slots: a bump counter plus a LIFO free list (kernel/src/mm/kstack.rs). */
module KernelStacks {
  import opened Options

  const KERNEL_STACK_AREA: nat := 0xffff_d000_0000_0000
  const KERNEL_STACK_SIZE: nat := 16 * 1024
  const KERNEL_STACK_SLOT: nat := KERNEL_STACK_SIZE + 4096
  const KERNEL_STACK_SLOTS: nat := 256

  datatype StackPool = StackPool(nextSlot: nat, free: seq<nat>)

  /** `allocate`: `framesLeft` says whether mapping a never-used slot finds its frames. A slot
      whose mapping fails is neither returned nor put back. */
  function Allocate(pool: StackPool, framesLeft: bool): (StackPool, Option<nat>) {
    if |pool.free| > 0 then
      (pool.(free := pool.free[..|pool.free| - 1]), Some(pool.free[|pool.free| - 1]))
    else if pool.nextSlot < KERNEL_STACK_SLOTS then
      (pool.(nextSlot := pool.nextSlot + 1), if framesLeft then Some(pool.nextSlot) else None)
    else
      (pool, None)
  }

  function Release(pool: StackPool, slot: nat): StackPool {
    pool.(free := pool.free + [slot])
  }

  function SlotBase(slot: nat): nat {
    KERNEL_STACK_AREA + slot * KERNEL_STACK_SLOT
  }

  function Bottom(slot: nat): nat {
    SlotBase(slot) + 4096
  }

  function Top(slot: nat): nat {
    Bottom(slot) + KERNEL_STACK_SIZE
  }

  /** The pages of one stack, its guard page included, never meet those of another slot, and none
      of them leaves the 64-bit address space. */
  lemma SlotsAreDisjoint(a: nat, b: nat)
    requires a < b < KERNEL_STACK_SLOTS
    ensures Top(a) <= Bottom(b) - 4096
    ensures Top(b) < 0x1_0000_0000_0000_0000
    ensures Top(a) % 4096 == 0
  {
    assert b * KERNEL_STACK_SLOT >= (a + 1) * KERNEL_STACK_SLOT;
  }
}
