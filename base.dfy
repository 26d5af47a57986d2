/** Small shared types: Rust's `Option` and `u8`. */
module Base {

  datatype Option<+T> = None | Some(value: T)

  /** Rust's `u8`, the type of column numbers. */
  newtype u8 = x: int | 0 <= x < 256
}
