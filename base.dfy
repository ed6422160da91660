/** Small shared vocabulary. */
module Base {
  /** A value that may be absent. */
  datatype Option<+T> = None | Some(value: T)

  /** 2^64: the range of a 64-bit unsigned integer (unsigned long, unsigned long long, size_t). */
  const TWO_TO_64: int := 0x1_0000_0000_0000_0000
}
