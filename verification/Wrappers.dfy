/** What several modules need. */
module Wrappers {
  datatype Option<+T> = None | Some(value: T)

  const UINT64_MAX: nat := 0xFFFF_FFFF_FFFF_FFFF
}
