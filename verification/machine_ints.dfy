/** Unsigned machine integers: the `u32` and `u64` bounds the Rust code
    relies on, and the `as u32` truncation written out as `AsU32`. */
module MachineInts {

  const U32_MODULUS: nat := 0x1_0000_0000
  const U32_MAX: nat := 0xFFFF_FFFF
  const U64_MAX: nat := 0xFFFF_FFFF_FFFF_FFFF

  /** The value of `n as u32` for a non-negative `n`. */
  function AsU32(n: nat): (r: nat)
    ensures r < U32_MODULUS
    ensures n < U32_MODULUS ==> r == n
  {
    n % U32_MODULUS
  }
}
