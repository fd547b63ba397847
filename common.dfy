/** Shared value types: optional values, results, bytes and unsigned 64-bit integers. */
module Common {

  datatype Option<+T> = None | Some(value: T)

  /** The outcome of an operation that can fail; `Err` names what went wrong. */
  datatype Result<+T, +E> = Ok(value: T) | Err(error: E)

  /** Rust `u8`, a JavaScript `Uint8Array` element. */
  type byte = b: int | 0 <= b < 256

  type Bytes = seq<byte>

  const Pow64: nat := 0x1_0000_0000_0000_0000

  /** Rust `u64`. */
  type U64 = x: int | 0 <= x < Pow64
}
