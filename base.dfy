/** Small shared definitions: byte and machine-integer types, Option and Result. */
module Base {

  /** An unsigned 8-bit value, as Rust's `u8`. */
  newtype byte = x: int | 0 <= x < 0x100

  /** An unsigned 64-bit value, as Rust's `u64`. */
  newtype u64 = x: int | 0 <= x < 0x1_0000_0000_0000_0000

  const U64_MAX: int := 0xFFFF_FFFF_FFFF_FFFF

  /** Rust's `Option`. */
  datatype Option<+T> = None | Some(value: T)

  /** Rust's `Result`. */
  datatype Result<+T, +E> = Ok(value: T) | Err(error: E)

  function Min(a: nat, b: nat): (m: nat)
    ensures m <= a && m <= b && (m == a || m == b)
  {
    if a <= b then a else b
  }
}
