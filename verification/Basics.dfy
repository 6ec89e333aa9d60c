/** What several components share: optional values, bytes, the range of a 32-bit `uint`, and the types of inodes. */
module Basics {

  datatype Option<T> = None | Some(value: T)

  type byte = x: int | 0 <= x < 256

  const UINT := 0x1_0000_0000

  // The types of inodes (p2b/include/stat.h:6-8).
  const T_DIR := 1
  const T_FILE := 2
  const T_DEV := 3
}
