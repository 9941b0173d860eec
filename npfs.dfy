/**
 * The parts of the 9P2000 server library header (include/npfs.h) that the
 * dirtab engine uses: qids, the stat record handed to the serialiser, the
 * qid-type and permission bits, and the error kinds the handlers report.
 */
module Npfs {

  datatype Option<+T> = None | Some(value: T)

  datatype Result<+T> = Ok(value: T) | Err(error: Error)

  /**
   * Error kinds.  The errno names are those passed to create_rerror; NoAuth
   * and DirChange are the two named 9P errors raised with np_werror;
   * SysError is whatever errno a failed system call left; StaleErrno is the
   * case where the failing helper returned -1 without setting errno.
   */
  datatype Error =
    | ENOENT | EPERM | EINVAL | ENOSPC | EADDRINUSE | ENOTCONN | EBADF
    | ENOMEM | EPROTO
    | NoAuth
    | DirChange
    | SysError
    | StaleErrno

  /** qid.type bits */
  const Qtdir: bv8 := 0x80
  const Qtfile: bv8 := 0x00

  /** permission bits of a stat record */
  const Dmdir: bv32 := 0x8000_0000
  const UserExecMask: bv32 := 0x0000_0040
  const UserWriteMask: bv32 := 0x0000_0080
  const UserReadMask: bv32 := 0x0000_0100

  /** 9P2000 qid: type[1] version[4] path[8] */
  datatype Qid = Qid(qtype: bv8, version: bv32, path: bv64)

  const ZeroQid: Qid := Qid(0, 0, 0)

  /**
   * The stat record (Npwstat) a handler fills in before serialisation.
   * The fields the dirtab handlers never set (size, type, dev and the
   * numeric 9P2000.u ids) are zero after their memset and are left out.
   */
  datatype Wstat = Wstat(
    qid: Qid,
    mode: bv32,
    atime: nat,
    mtime: nat,
    length: nat,
    name: string,
    uid: string,
    gid: string,
    muid: string,
    extension: Option<string>)
}
