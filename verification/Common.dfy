/** What several parts of the kernel share. */
module Common {

  datatype Option<T> = None | Some(value: T)

  const BSIZE: nat := 512
  const BPB: nat := 4096          // bitmap bits per block

  /** Most blocks one file-system call may write (param.h). */
  const MAXOPBLOCKS: nat := 10

  /** A disk block's name, and its contents as the cache and the driver pass them on. */
  datatype Key = Key(dev: nat, blockno: nat)
  type Data = seq<int>

  function Min(a: nat, b: nat): nat {
    if a < b then a else b
  }
}
