/** Shared result types and the machine integers the program uses. */
module Prelude {
  datatype Option<+T> = None | Some(value: T) {
    predicate IsFailure() { None? }

    function PropagateFailure<U>(): Option<U>
      requires None?
    {
      None
    }

    function Extract(): T
      requires Some?
    {
      value
    }
  }

  datatype Result<+T, +E> = Ok(value: T) | Err(error: E) {
    predicate IsFailure() { Err? }

    function PropagateFailure<U>(): Result<U, E>
      requires Err?
    {
      Err(error)
    }

    function Extract(): T
      requires Ok?
    {
      value
    }
  }

  const U64_MAX: int := 0xFFFF_FFFF_FFFF_FFFF
  const U16_MAX: int := 0xFFFF

  type u64 = n: int | 0 <= n <= U64_MAX
  type u16 = n: int | 0 <= n <= U16_MAX
  type byte = n: int | 0 <= n < 256
  type Bytes = seq<byte>

  /** 64-bit addition that wraps. */
  function WrappingAdd(a: u64, b: u64): u64 {
    if a + b > U64_MAX then a + b - (U64_MAX + 1) else a + b
  }
}
