/** Definitions that several parts of the system share. */
module Common {
  datatype Option<T> = None | Some(value: T)

  /** Parameters of kernel/param.h. */
  const MAXOPBLOCKS: nat := 10
  const LOGSIZE: nat := MAXOPBLOCKS * 3

  /** One more than the largest 32-bit unsigned number. */
  const UINT_LIMIT: nat := 0x1_0000_0000

  /** The inode number of the root directory. */
  const ROOTINO: nat := 1

  const NUL: char := '\0'

  function Min(a: nat, b: nat): nat {
    if a < b then a else b
  }

  function Max(a: nat, b: nat): nat {
    if a < b then b else a
  }
}
