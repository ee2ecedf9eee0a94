/** The parts of Rust's prelude that the model relies on: the `Option` and
    `Result` enums and the fixed-width integer types, as ranges of `int`.
    Arithmetic that leaves a range panics in a debug build of Rust, so the
    modelled functions state the range of their results as a precondition. */
module Prelude {

  datatype Option<T> = None | Some(value: T)

  datatype Result<T, E> = Ok(value: T) | Err(error: E)

  const I32_MIN: int := -0x8000_0000
  const I32_MAX: int := 0x7fff_ffff
  const U32_MAX: int := 0xffff_ffff
  const U64_MAX: int := 0xffff_ffff_ffff_ffff

  type i32 = x: int | I32_MIN <= x <= I32_MAX
  type u8 = x: int | 0 <= x < 0x100
  type u32 = x: int | 0 <= x <= U32_MAX
  type u64 = x: int | 0 <= x <= U64_MAX

  predicate InI32(x: int) { I32_MIN <= x <= I32_MAX }
  predicate InU32(x: int) { 0 <= x <= U32_MAX }
}
