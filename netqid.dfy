/** The conversion between a small number and the byte that holds it. */
module ByteConv {
  lemma ByteRoundTrip(i: nat)
    requires i < 256
    ensures (i as bv8) as nat == i
  {
    // splitting the range keeps the solver's bit-vector search small
    if i < 128 {
    } else {
    }
  }
}

/**
 * The /net server's tables and qid encoding (devdirtab/netfs.c, devdirtab/netfs.h):
 * the pure part of netfs.c that the dirtab engine calls back into.
 *
 * A qid path carries the row id in bits 0-7 and the connection-pool index
 * in bits 8-15; index 0 means the static part of the tree.
 */
module NetQid {
  import opened Npfs
  import opened Casafs
  import MyConn
  import opened ByteConv

  /** Row ids of the static tree. */
  const Qroot: bv8 := 0
  const Qclone: bv8 := 1
  const Nobody: bv8 := 0xff

  /** Row ids of a cloned connection directory. */
  const Qtopdir: bv8 := 0
  const Qctl: bv8 := 1
  const Qdata: bv8 := 2
  const Qlisten: bv8 := 3

  const Qidbits: bv64 := 0xff
  const IndexShift := 8
  const IndexMask: bv64 := 0xff

  const DefaultFileOps := FileOps(None, None, None)
  const CloneFileOps := FileOps(None, None, Some(CloneOpen))
  const CtlFileOps := FileOps(Some(CtlRead), Some(CtlWrite), None)
  const DataFileOps := FileOps(Some(DataRead), Some(DataWrite), None)
  const ListenFileOps := FileOps(Some(ListenRead), None, None)

  /** The served root: the root directory and its clone file. */
  const StaticTab: seq<Dirtab> := [
    Dirtab("root", Qroot, Qtdir, Nobody, DefaultFileOps),
    Dirtab("clone", Qclone, Qtfile, Qroot, CloneFileOps)
  ]

  /** The per-connection directory that clone_open grafts under the root. */
  const CloneTab: seq<Dirtab> := [
    Dirtab("root", Qtopdir, Qtdir, Nobody, DefaultFileOps),
    Dirtab("ctl", Qctl, Qtfile, Qtopdir, CtlFileOps),
    Dirtab("data", Qdata, Qtfile, Qtopdir, DataFileOps),
    Dirtab("listen", Qlisten, Qtfile, Qtopdir, ListenFileOps)
  ]

  lemma NetTablesAreOneLevel()
    ensures OneLevelTable(StaticTab, Nobody) && OneLevelTable(CloneTab, Nobody)
  {
  }

  /** The low eight bits of a qid path: the row id. */
  function RowId(path: bv64): bv8
  {
    (path & Qidbits) as bv8
  }

  /** Bits 8-15 of a qid path. */
  function IndexByte(path: bv64): bv8
  {
    ((path >> IndexShift) & IndexMask) as bv8
  }

  /** CONNINDEX: bits 8-15 of a qid path, as a number. */
  function ConnIndex(path: bv64): (r: nat)
    ensures r < 256
  {
    IndexByte(path) as nat
  }

  /** IS_IN_DYNAMIC, applied to a fid's qid path: the path carries a pool index. */
  predicate IsInDynamic(path: bv64)
  {
    ConnIndex(path) != 0
  }

  /** IS_IN_STATIC: the negation of IsInDynamic. */
  predicate IsInStatic(path: bv64)
  {
    !IsInDynamic(path)
  }

  /** The two bytes of `a | b << 8` are a and b, and nothing above them is set. */
  lemma EncodeBytes(a: bv8, b: bv8)
    ensures RowId((a as bv64) | ((b as bv64) << IndexShift)) == a
    ensures IndexByte((a as bv64) | ((b as bv64) << IndexShift)) == b
    ensures ((a as bv64) | ((b as bv64) << IndexShift)) >> 16 == 0
  {
  }

  /** The path of row `qidpath` under pool index `index`: `qidpath | index << 8`. */
  function EncodePath(qidpath: bv8, index: nat): (p: bv64)
    requires index < 256
    ensures RowId(p) == qidpath && ConnIndex(p) == index
    ensures p >> 16 == 0
  {
    var b := index as bv8;
    ByteRoundTrip(index);
    EncodeBytes(qidpath, b);
    (qidpath as bv64) | ((b as bv64) << IndexShift)
  }

  /** Encoding is injective: row id and pool index are both recovered. */
  lemma EncodePathInjective(a: bv8, i: nat, b: bv8, j: nat)
    requires i < 256 && j < 256
    requires EncodePath(a, i) == EncodePath(b, j)
    ensures a == b && i == j
  {
  }

  /** ConnPtr2Qid: the qid of row `dt` in the directory of the slot with this index. */
  function ConnPtr2Qid(index: nat, dt: Dirtab): (q: Qid)
    requires index < 256
    ensures q.qtype == dt.qidtype && q.version == 0
    ensures RowId(q.path) == dt.qidpath && ConnIndex(q.path) == index
  {
    Qid(dt.qidtype, 0, EncodePath(dt.qidpath, index))
  }

  /**
   * dt2qid: the qid of row `dt`; with a connection the path carries its
   * index, without one it is the bare row id.
   */
  function Dt2Qid(dt: Dirtab, conn: Option<nat>): (q: Qid)
    requires conn.Some? ==> conn.value < 256
    ensures q.qtype == dt.qidtype && q.version == 0 && RowId(q.path) == dt.qidpath
    ensures ConnIndex(q.path) == if conn.Some? then conn.value else 0
  {
    if conn.Some? then ConnPtr2Qid(conn.value, dt) else Qid(dt.qidtype, 0, EncodePath(dt.qidpath, 0))
  }

  /** What retrieveFileSpecs reports for a fid: the table, its size and the connection. */
  datatype FileSpecs = FileSpecs(tab: seq<Dirtab>, size: nat, conn: Option<nat>)

  /**
   * retrieveFileSpecs: the static table with no connection for a static
   * fid, the clone table with the slot named by the path for a dynamic one.
   * One of the two always applies, so the source's -1 return is dead code.
   */
  function RetrieveFileSpecs(path: bv64): (r: FileSpecs)
    ensures IsInStatic(path) ==> r.tab == StaticTab && r.size == |StaticTab| && r.conn.None?
    ensures IsInDynamic(path) ==> r.tab == CloneTab && r.size == |CloneTab|
    ensures IsInDynamic(path) ==> r.conn == MyConn.GetConnPtr(ConnIndex(path))
  {
    if IsInStatic(path) then FileSpecs(StaticTab, |StaticTab|, None)
    else FileSpecs(CloneTab, |CloneTab|, MyConn.GetConnPtr(ConnIndex(path)))
  }

  /**
   * The qid dt2fid stores when called without a connection: the pool index
   * is taken from the fid's qid before the update.
   */
  function InheritedQid(oldpath: bv64, dt: Dirtab): (q: Qid)
    ensures q.qtype == dt.qidtype && RowId(q.path) == dt.qidpath
    ensures ConnIndex(oldpath) < MyConn.MAXCONN ==> ConnIndex(q.path) == ConnIndex(oldpath)
    ensures ConnIndex(oldpath) >= MyConn.MAXCONN ==> ConnIndex(q.path) == 0
  {
    Dt2Qid(dt, RetrieveFileSpecs(oldpath).conn)
  }

  /**
   * The walk quirk in the /net server: inside a cloned directory the fid
   * keeps its pool index, but the qid built with no handle for the same
   * row (the one returned to the client) has none.
   */
  lemma NullHandleDropsIndex(oldpath: bv64, dt: Dirtab)
    requires IsInDynamic(oldpath) && ConnIndex(oldpath) < MyConn.MAXCONN
    ensures ConnIndex(InheritedQid(oldpath, dt).path) == ConnIndex(oldpath) != 0
    ensures ConnIndex(Dt2Qid(dt, None).path) == 0
    ensures InheritedQid(oldpath, dt) != Dt2Qid(dt, None)
  {
  }

  /**
   * dt2fid: point the fid at row `dt` with the given name; without a
   * connection the fid's current qid decides which one applies, through
   * retrieveFileSpecs (InheritedQid).
   */
  method Dt2Fid(dt: Dirtab, f: Fid, filename: string, conn: Option<nat>)
    requires conn.Some? ==> conn.value < 256
    modifies f
    ensures f.qid == (if conn.Some? then Dt2Qid(dt, conn) else InheritedQid(old(f.qid.path), dt))
    ensures f.filename == filename && f.dt == dt
    ensures f.omode == old(f.omode) && f.offset == old(f.offset)
    ensures f.parenttab == old(f.parenttab) && f.parenttabsize == old(f.parenttabsize)
  {
    if conn.Some? {
      f.qid := Dt2Qid(dt, conn);
    } else {
      f.qid := InheritedQid(f.qid.path, dt);
    }
    f.filename := filename;
    f.dt := dt;
  }
}
