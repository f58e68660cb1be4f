/** The limits of param.h that more than one part depends on. */
module Params {
  const MAXOPBLOCKS: nat := 10   // blocks one file system call may add to the log
  const LOGSIZE: nat := 30       // blocks in the log: MAXOPBLOCKS * 3
  const NBUF: nat := 30          // buffers in the cache: MAXOPBLOCKS * 3
  const ROOTDEV: nat := 1
}
