/** What several modules need. */
module Common {

  datatype Option<+T> = None | Some(value: T)

  /** uint64_t arithmetic is modulo this. */
  const U64: nat := 0x1_0000_0000_0000_0000
}
