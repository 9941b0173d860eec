/**
 * The directory-table row and the per-client cursor (devdirtab/casafs.h).
 */
module Casafs {
  import opened Npfs

  const KNAMELEN := 28

  /**
   * The file operations a row may provide (NpDtfileops).  The function
   * pointers become tags naming the delegate; the delegates themselves are
   * modelled in the server modules (NetFs, ConsoleFs).
   */
  datatype ReadOp = CtlRead | DataRead | ListenRead | ConsRead | TimeRead | MsecRead
  datatype WriteOp = CtlWrite | DataWrite | ConsWrite
  datatype OpenOp = CloneOpen

  datatype FileOps = FileOps(read: Option<ReadOp>, write: Option<WriteOp>, open: Option<OpenOp>)

  /** One row of a static directory table: name, own id, type, parent id, operations. */
  datatype Dirtab = Dirtab(name: string, qidpath: bv8, qidtype: bv8, parentpath: bv8, fops: FileOps)

  /**
   * The shape of every table the servers declare: row 0 is a directory
   * whose parent is `nobody`, every other row is a plain file whose parent
   * is row 0, and row ids are distinct.
   */
  predicate OneLevelTable(tab: seq<Dirtab>, nobody: bv8)
  {
    && |tab| > 0
    && tab[0].parentpath == nobody && tab[0].qidtype == Qtdir
    && (forall i :: 1 <= i < |tab| ==> tab[i].parentpath == tab[0].qidpath && tab[i].qidtype == Qtfile)
    && (forall i, j :: 0 <= i < j < |tab| ==> tab[i].qidpath != tab[j].qidpath)
  }

  /**
   * The per-client cursor (struct Fid).  `dt` is the row the fid denotes;
   * `parenttab`/`parenttabsize` are the table in scope, which may be a
   * static table or the destination table of a graft.
   */
  class Fid {
    var filename: string
    var dt: Dirtab
    var qid: Qid
    var omode: int
    var offset: nat
    var parenttab: seq<Dirtab>
    var parenttabsize: nat

    /** The size in scope never exceeds the table in scope (C reads parenttab[0..parenttabsize)). */
    ghost predicate Valid()
      reads this
    {
      parenttabsize <= |parenttab|
    }

    /**
     * npfs_fidalloc: a fresh fid whose qid is zero, whose open mode is -1
     * and whose offset is 0.  The other fields are whatever malloc left;
     * the model gives them placeholder values and promises nothing about them.
     */
    constructor Alloc()
      ensures Valid()
      ensures qid == ZeroQid && omode == -1 && offset == 0
    {
      filename := "";
      dt := Dirtab("", 0, 0, 0, FileOps(None, None, None));
      qid := ZeroQid;
      omode := -1;
      offset := 0;
      parenttab := [];
      parenttabsize := 0;
    }
  }
}
