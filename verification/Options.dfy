/** The optional value and the small arithmetic that the kernel's Rust code relies on. */
module Options {

  datatype Option<+T> = None | Some(value: T)

  /** `u64::saturating_sub` on values that fit. */
  function SatSub(a: nat, b: nat): nat {
    if a >= b then a - b else 0
  }

  function Min(a: nat, b: nat): nat {
    if a < b then a else b
  }

  function Max(a: nat, b: nat): nat {
    if a < b then b else a
  }
}
