/** Fixed-width arithmetic the modelled code relies on, written out over unbounded integers. */
module Machine {

  /** Largest uint64 value. */
  const MAX64: nat := 0xFFFF_FFFF_FFFF_FFFF

  /** uint64 increment, wrapping at 2^64. */
  function Inc64(x: nat): (r: nat)
    requires x <= MAX64
  {
    if x == MAX64 then 0 else x + 1
  }

  /** uint64 subtraction, wrapping below zero. */
  function Sub64(a: nat, b: nat): (r: nat)
    requires a <= MAX64 && b <= MAX64
  {
    if b <= a then a - b else a + (MAX64 + 1) - b
  }

  datatype Option<+T> = None | Some(value: T)

  function Min(a: nat, b: nat): nat {
    if a <= b then a else b
  }
}
