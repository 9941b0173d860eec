/**
 * The dirtab namespace engine (devdirtab/dirtab.c): the resolver that
 * enumerates a directory's children over a static table and the graft
 * registry with one cursor, and the 9P handlers built on it.
 *
 * The engine is linked with one server, which supplies dt2qid and dt2fid;
 * `Flavour` says which.  A row's file operations are tags: where the C
 * code calls through a function pointer, the handler here answers
 * `Delegated(tag)` and the server module models the delegate.
 */
module Dirtab {
  import opened Npfs
  import opened Casafs
  import opened MyUtils
  import opened TransferPoints
  import NetQid
  import ConsoleFs

  /** Which server's dt2qid / dt2fid the engine is linked with. */
  datatype Flavour = NetServer | ConsoleServer

  /** The reply of a handler that may hand the request to a row's file operation. */
  datatype Reply<+T, +D> = Done(value: T) | Failed(error: Error) | Delegated(op: D)

  /** The connection a graft handle names, if any. */
  function HandleConn(h: Handle): Option<nat>
  {
    match h
    case NoHandle => None
    case ConnHandle(i) => Some(i)
  }

  /** A handle whose index fits the eight index bits of a qid path. */
  predicate HandleFits(h: Handle)
  {
    h.ConnHandle? ==> h.index < 256
  }

  /** The linked server's dt2qid. */
  function ServerDt2Qid(flav: Flavour, dt: Dirtab, h: Handle): (q: Qid)
    requires HandleFits(h)
    ensures q.qtype == dt.qidtype && q.version == 0 && q.path & 0xff == dt.qidpath as bv64
  {
    match flav
    case NetServer => NetQid.Dt2Qid(dt, HandleConn(h))
    case ConsoleServer => ConsoleFs.Dt2Qid(dt)
  }

  /** The qid the linked server's dt2fid stores in a fid whose qid path was `oldpath`. */
  function FidQidAfter(flav: Flavour, oldpath: bv64, dt: Dirtab, h: Handle): Qid
    requires HandleFits(h)
  {
    match flav
    case NetServer => if h.NoHandle? then NetQid.InheritedQid(oldpath, dt) else NetQid.Dt2Qid(dt, HandleConn(h))
    case ConsoleServer => ConsoleFs.Dt2Qid(dt)
  }

  /** The linked server's dt2fid. */
  method ServerDt2Fid(flav: Flavour, dt: Dirtab, f: Fid, filename: string, h: Handle)
    requires HandleFits(h)
    modifies f
    ensures f.qid == FidQidAfter(flav, old(f.qid.path), dt, h) && f.filename == filename
    ensures f.dt == (if flav.NetServer? then dt else old(f.dt))
    ensures f.omode == old(f.omode) && f.offset == old(f.offset)
    ensures f.parenttab == old(f.parenttab) && f.parenttabsize == old(f.parenttabsize)
  {
    match flav
    case NetServer => NetQid.Dt2Fid(dt, f, filename, HandleConn(h));
    case ConsoleServer => ConsoleFs.Dt2Fid(dt, f, filename);
  }

  /**
   * What the resolver needs of the registry: every graft has a destination
   * table with a row 0 and a size that fits it, and a handle that fits a qid.
   */
  predicate GraftsValid(tps: seq<TransferPoint>)
  {
    forall j :: 0 <= j < |tps| ==>
      |tps[j].desttable| > 0 && tps[j].desttablesize <= |tps[j].desttable| && HandleFits(tps[j].handle)
  }

  // ---------------------------------------------------------------------------
  // The resolver

  /** `(u8)(parentpath & Qidbits)`: the row id the static phase compares with. */
  function FilePath(parentpath: bv64): bv8
  {
    (parentpath & 0xff) as bv8
  }

  /** A child found by the resolver: a row of the static table, or the graft at a list position. */
  datatype Hit = NoChild | Row(i: nat) | Graft(j: nat)

  /** A resolver call's result together with the cursor it leaves. */
  datatype Step = Step(hit: Hit, offset: nat)

  predicate HitIn(h: Hit, tabsize: nat, ngrafts: nat)
  {
    match h
    case NoChild => false
    case Row(i) => i < tabsize
    case Graft(j) => j < ngrafts
  }

  predicate HitsIn(hits: seq<Hit>, tabsize: nat, ngrafts: nat)
  {
    forall k :: 0 <= k < |hits| ==> HitIn(hits[k], tabsize, ngrafts)
  }

  /** The first row at or after `offset` whose parent is `filepath`. */
  function StaticScan(offset: nat, filepath: bv8, tab: seq<Dirtab>, tabsize: nat): (r: Option<nat>)
    requires tabsize <= |tab|
    ensures r.Some? ==> offset <= r.value < tabsize && tab[r.value].parentpath == filepath
    ensures r.Some? ==> forall k :: offset <= k < r.value ==> tab[k].parentpath != filepath
    ensures r.None? <==> forall k :: offset <= k < tabsize ==> tab[k].parentpath != filepath
    decreases tabsize - offset
  {
    if offset >= tabsize then None
    else if tab[offset].parentpath == filepath then Some(offset)
    else StaticScan(offset + 1, filepath, tab, tabsize)
  }

  /** The first graft at or after list position `pos` whose start qid path is `parentpath`. */
  function GraftScan(pos: nat, parentpath: bv64, tps: seq<TransferPoint>): (r: Option<nat>)
    ensures r.Some? ==> pos <= r.value < |tps| && tps[r.value].startQidPath == parentpath
    ensures r.Some? ==> forall k :: pos <= k < r.value ==> tps[k].startQidPath != parentpath
    ensures r.None? <==> forall k :: pos <= k < |tps| ==> tps[k].startQidPath != parentpath
    decreases |tps| - pos
  {
    if pos >= |tps| then None
    else if tps[pos].startQidPath == parentpath then Some(pos)
    else GraftScan(pos + 1, parentpath, tps)
  }

  function Max(a: nat, b: nat): nat
  {
    if a < b then b else a
  }

  /**
   * One call of findNextDirChild from cursor `offset`.  Positions below
   * `tabsize` are rows, compared on the low eight bits of the parent path;
   * positions from `tabsize` on are list positions, compared on the full
   * 64-bit path.
   */
  function NextDirChild(offset: nat, parentpath: bv64, tab: seq<Dirtab>, tabsize: nat,
                        tps: seq<TransferPoint>): (s: Step)
    requires tabsize <= |tab|
    ensures s.offset >= offset
    ensures s.hit.Row? ==> s.hit.i < tabsize && s.offset == s.hit.i + 1
    ensures s.hit.Graft? ==> s.hit.j < |tps| && s.offset == tabsize + s.hit.j + 1
    ensures s.hit.NoChild? ==> s.offset == Max(offset, tabsize + |tps|)
    ensures !s.hit.NoChild? ==> offset < s.offset <= tabsize + |tps|
  {
    match StaticScan(offset, FilePath(parentpath), tab, tabsize)
    case Some(i) => Step(Row(i), i + 1)
    case None =>
      var k := Max(offset, tabsize) - tabsize;
      if k >= |tps| then Step(NoChild, Max(offset, tabsize))
      else match GraftScan(k, parentpath, tps)
        case Some(j) => Step(Graft(j), tabsize + j + 1)
        case None => Step(NoChild, tabsize + |tps|)
  }

  /**
   * What one resolver call finds: the first row at or after the cursor
   * whose parent is the directory's row id; failing that, the first graft
   * at or after the cursor's list position that starts at the directory's
   * path; failing that, nothing.
   */
  lemma NextDirChildFinds(offset: nat, parentpath: bv64, tab: seq<Dirtab>, tabsize: nat, tps: seq<TransferPoint>)
    requires tabsize <= |tab|
    ensures var s := NextDirChild(offset, parentpath, tab, tabsize, tps);
      && (s.hit.Row? ==> && offset <= s.hit.i
                         && tab[s.hit.i].parentpath == FilePath(parentpath)
                         && forall k :: offset <= k < s.hit.i ==> tab[k].parentpath != FilePath(parentpath))
      && (!s.hit.Row? ==> forall k :: offset <= k < tabsize ==> tab[k].parentpath != FilePath(parentpath))
    ensures var s := NextDirChild(offset, parentpath, tab, tabsize, tps);
      && (s.hit.Graft? ==> && Max(offset, tabsize) - tabsize <= s.hit.j
                           && tps[s.hit.j].startQidPath == parentpath
                           && forall k :: Max(offset, tabsize) - tabsize <= k < s.hit.j ==>
                                tps[k].startQidPath != parentpath)
      && (s.hit.NoChild? ==> forall k :: Max(offset, tabsize) - tabsize <= k < |tps| ==>
                               tps[k].startQidPath != parentpath)
  {
  }

  /**
   * findNextDirChild: advance the cursor through the static table, then
   * skip to its list position and scan the grafts.
   */
  method FindNextDirChild(offset: nat, parentpath: bv64, fsdirtab: seq<Dirtab>, tabsize: nat,
                          tps: seq<TransferPoint>) returns (hit: Hit, newOffset: nat)
    requires tabsize <= |fsdirtab|
    ensures Step(hit, newOffset) == NextDirChild(offset, parentpath, fsdirtab, tabsize, tps)
  {
    var row, off := ScanRows(offset, FilePath(parentpath), fsdirtab, tabsize);
    if row.Some? {
      return Row(row.value), off;
    }
    var p := SkipToList(off, tabsize, tps);
    if p.None? {
      return NoChild, off;
    }
    var graft: Option<nat>;
    graft, newOffset := ScanGrafts(p.value, parentpath, tabsize, tps);
    hit := if graft.Some? then Graft(graft.value) else NoChild;
  }

  /** findNextDirChild's first loop: advance the cursor through the static table. */
  method ScanRows(offset: nat, filepath: bv8, fsdirtab: seq<Dirtab>, tabsize: nat)
    returns (row: Option<nat>, off: nat)
    requires tabsize <= |fsdirtab|
    ensures row == StaticScan(offset, filepath, fsdirtab, tabsize)
    ensures row.Some? ==> off == row.value + 1
    ensures row.None? ==> off == Max(offset, tabsize)
  {
    off := offset;
    while off < tabsize
      invariant offset <= off && (offset <= tabsize ==> off <= tabsize) && (offset > tabsize ==> off == offset)
      invariant StaticScan(offset, filepath, fsdirtab, tabsize) == StaticScan(off, filepath, fsdirtab, tabsize)
    {
      var i := off;
      off := off + 1;
      if fsdirtab[i].parentpath == filepath {
        return Some(i), off;
      }
    }
    return None, off;
  }

  /**
   * findNextDirChild's second loop: walk the list to the cursor's list
   * position `off - tabsize`; None when the list ends before it.
   */
  method SkipToList(off: nat, tabsize: nat, tps: seq<TransferPoint>) returns (p: Option<nat>)
    requires tabsize <= off
    ensures p == if off - tabsize > |tps| then None else Some(off - tabsize)
  {
    // q is the list position of `tp`; q == |tps| stands for NULL
    var q := 0;
    var llindex := tabsize;
    while llindex < off
      invariant tabsize <= llindex <= off
      invariant q == llindex - tabsize && q <= |tps|
    {
      if q == |tps| {
        return None;
      }
      q := q + 1;
      llindex := llindex + 1;
    }
    return Some(q);
  }

  /** findNextDirChild's third loop: scan the list from position p, counting each record in the cursor. */
  method ScanGrafts(p: nat, parentpath: bv64, tabsize: nat, tps: seq<TransferPoint>)
    returns (graft: Option<nat>, off: nat)
    requires p <= |tps|
    ensures graft == GraftScan(p, parentpath, tps)
    ensures graft.Some? ==> off == tabsize + graft.value + 1
    ensures graft.None? ==> off == tabsize + |tps|
  {
    var q := p;
    off := tabsize + p;
    while q < |tps|
      invariant p <= q <= |tps|
      invariant off == tabsize + q
      invariant GraftScan(p, parentpath, tps) == GraftScan(q, parentpath, tps)
    {
      off := off + 1;
      if tps[q].startQidPath == parentpath {
        return Some(q), off;
      }
      q := q + 1;
    }
    return None, off;
  }

  /**
   * findNextDirChild1: the same code with an 8-bit `filepath` argument,
   * against which the graft phase compares the full start path.  It is
   * the resolver applied to the widened path.
   */
  method FindNextDirChild1(offset: nat, filepath: bv8, fsdirtab: seq<Dirtab>, tabsize: nat,
                           tps: seq<TransferPoint>) returns (hit: Hit, newOffset: nat)
    requires tabsize <= |fsdirtab|
    ensures Step(hit, newOffset) == NextDirChild(offset, filepath as bv64, fsdirtab, tabsize, tps)
    ensures hit.Row? ==> fsdirtab[hit.i].parentpath == filepath
    ensures hit.Graft? ==> tps[hit.j].startQidPath == filepath as bv64
  {
    assert FilePath(filepath as bv64) == filepath;
    hit, newOffset := FindNextDirChild(offset, filepath as bv64, fsdirtab, tabsize, tps);
  }

  /** The children that repeated resolver calls from `offset` produce, in order. */
  function Listing(offset: nat, parentpath: bv64, tab: seq<Dirtab>, tabsize: nat,
                   tps: seq<TransferPoint>): (r: seq<Hit>)
    requires tabsize <= |tab|
    ensures HitsIn(r, tabsize, |tps|)
    decreases tabsize + |tps| - offset
  {
    var s := NextDirChild(offset, parentpath, tab, tabsize, tps);
    if s.hit.NoChild? then [] else [s.hit] + Listing(s.offset, parentpath, tab, tabsize, tps)
  }

  /** The cursor value where the listing from `offset` stops. */
  function ListingEnd(offset: nat, parentpath: bv64, tab: seq<Dirtab>, tabsize: nat,
                      tps: seq<TransferPoint>): nat
    requires tabsize <= |tab|
    decreases tabsize + |tps| - offset
  {
    var s := NextDirChild(offset, parentpath, tab, tabsize, tps);
    if s.hit.NoChild? then s.offset else ListingEnd(s.offset, parentpath, tab, tabsize, tps)
  }

  /** The rows from position i on whose parent is `filepath`, in table order. */
  function StaticMatches(i: nat, filepath: bv8, tab: seq<Dirtab>, tabsize: nat): seq<Hit>
    requires tabsize <= |tab|
    decreases tabsize - i
  {
    if i >= tabsize then []
    else (if tab[i].parentpath == filepath then [Row(i)] else []) + StaticMatches(i + 1, filepath, tab, tabsize)
  }

  /** The grafts from list position j on whose start path is `parentpath`, in list order. */
  function GraftMatches(j: nat, parentpath: bv64, tps: seq<TransferPoint>): seq<Hit>
    decreases |tps| - j
  {
    if j >= |tps| then []
    else (if tps[j].startQidPath == parentpath then [Graft(j)] else []) + GraftMatches(j + 1, parentpath, tps)
  }

  lemma {:induction false} StaticMatchesSkip(i: nat, m: nat, filepath: bv8, tab: seq<Dirtab>, tabsize: nat)
    requires tabsize <= |tab| && i <= m <= tabsize
    requires forall k :: i <= k < m ==> tab[k].parentpath != filepath
    ensures StaticMatches(i, filepath, tab, tabsize) == StaticMatches(m, filepath, tab, tabsize)
    decreases m - i
  {
    if i < m {
      StaticMatchesSkip(i + 1, m, filepath, tab, tabsize);
    }
  }

  lemma {:induction false} GraftMatchesSkip(j: nat, m: nat, parentpath: bv64, tps: seq<TransferPoint>)
    requires j <= m <= |tps|
    requires forall k :: j <= k < m ==> tps[k].startQidPath != parentpath
    ensures GraftMatches(j, parentpath, tps) == GraftMatches(m, parentpath, tps)
    decreases m - j
  {
    if j < m {
      GraftMatchesSkip(j + 1, m, parentpath, tps);
    }
  }

  /** From a cursor in the list part, the listing is the matching grafts from that position on. */
  lemma {:induction false} ListingOfGrafts(offset: nat, parentpath: bv64, tab: seq<Dirtab>, tabsize: nat,
                                           tps: seq<TransferPoint>)
    requires tabsize <= |tab| && tabsize <= offset <= tabsize + |tps|
    ensures Listing(offset, parentpath, tab, tabsize, tps) == GraftMatches(offset - tabsize, parentpath, tps)
    decreases tabsize + |tps| - offset
  {
    var k := offset - tabsize;
    var s := NextDirChild(offset, parentpath, tab, tabsize, tps);
    NextDirChildFinds(offset, parentpath, tab, tabsize, tps);
    match s.hit
    case NoChild =>
      GraftMatchesSkip(k, |tps|, parentpath, tps);
    case Row(i) =>
      assert false;
    case Graft(j) =>
      GraftMatchesSkip(k, j, parentpath, tps);
      ListingOfGrafts(s.offset, parentpath, tab, tabsize, tps);
  }

  /** From a cursor in the table part, the listing is the matching rows from there, then every matching graft. */
  lemma {:induction false} ListingOfRows(offset: nat, parentpath: bv64, tab: seq<Dirtab>, tabsize: nat,
                                         tps: seq<TransferPoint>)
    requires tabsize <= |tab| && offset <= tabsize
    ensures Listing(offset, parentpath, tab, tabsize, tps)
         == StaticMatches(offset, FilePath(parentpath), tab, tabsize) + GraftMatches(0, parentpath, tps)
    decreases tabsize - offset
  {
    var s := NextDirChild(offset, parentpath, tab, tabsize, tps);
    if s.hit.Row? {
      ListingOfRows(s.hit.i + 1, parentpath, tab, tabsize, tps);
      ListingRowStep(offset, s.hit.i, parentpath, tab, tabsize, tps);
    } else {
      ListingPastRows(offset, parentpath, tab, tabsize, tps);
    }
  }

  /** A cursor whose resolver call finds row i lists that row, then what the cursor after it lists. */
  lemma ListingRowStep(offset: nat, i: nat, parentpath: bv64, tab: seq<Dirtab>, tabsize: nat,
                       tps: seq<TransferPoint>)
    requires tabsize <= |tab| && offset <= tabsize
    requires NextDirChild(offset, parentpath, tab, tabsize, tps).hit == Row(i)
    requires Listing(i + 1, parentpath, tab, tabsize, tps)
          == StaticMatches(i + 1, FilePath(parentpath), tab, tabsize) + GraftMatches(0, parentpath, tps)
    ensures Listing(offset, parentpath, tab, tabsize, tps)
         == StaticMatches(offset, FilePath(parentpath), tab, tabsize) + GraftMatches(0, parentpath, tps)
  {
    var fp := FilePath(parentpath);
    assert Listing(offset, parentpath, tab, tabsize, tps) == [Row(i)] + Listing(i + 1, parentpath, tab, tabsize, tps) by {
      assert NextDirChild(offset, parentpath, tab, tabsize, tps).offset == i + 1;
    }
    assert StaticMatches(offset, fp, tab, tabsize) == [Row(i)] + StaticMatches(i + 1, fp, tab, tabsize) by {
      NextDirChildFinds(offset, parentpath, tab, tabsize, tps);
      StaticMatchesSkip(offset, i, fp, tab, tabsize);
    }    ConsAppend(Row(i), StaticMatches(i + 1, fp, tab, tabsize), GraftMatches(0, parentpath, tps));
  }

  lemma ConsAppend<T>(x: T, a: seq<T>, b: seq<T>)
    ensures [x] + (a + b) == ([x] + a) + b
  {
  }

  /** A cursor with no matching row left lists the matching grafts only. */
  lemma ListingPastRows(offset: nat, parentpath: bv64, tab: seq<Dirtab>, tabsize: nat,
                        tps: seq<TransferPoint>)
    requires tabsize <= |tab| && offset <= tabsize
    requires !NextDirChild(offset, parentpath, tab, tabsize, tps).hit.Row?
    ensures Listing(offset, parentpath, tab, tabsize, tps)
         == StaticMatches(offset, FilePath(parentpath), tab, tabsize) + GraftMatches(0, parentpath, tps)
  {
    var fp := FilePath(parentpath);
    NextDirChildFinds(offset, parentpath, tab, tabsize, tps);
    StaticMatchesSkip(offset, tabsize, fp, tab, tabsize);
    assert StaticMatches(tabsize, fp, tab, tabsize) == [];
    assert NextDirChild(tabsize, parentpath, tab, tabsize, tps) == NextDirChild(offset, parentpath, tab, tabsize, tps);
    ListingSameStep(offset, tabsize, parentpath, tab, tabsize, tps);
    ListingOfGrafts(tabsize, parentpath, tab, tabsize, tps);
  }

  /** Two cursors at which the resolver takes the same step list the same children. */
  lemma ListingSameStep(a: nat, b: nat, parentpath: bv64, tab: seq<Dirtab>, tabsize: nat, tps: seq<TransferPoint>)
    requires tabsize <= |tab|
    requires NextDirChild(a, parentpath, tab, tabsize, tps) == NextDirChild(b, parentpath, tab, tabsize, tps)
    ensures Listing(a, parentpath, tab, tabsize, tps) == Listing(b, parentpath, tab, tabsize, tps)
  {
  }

  /**
   * Enumeration: from cursor 0 with the list unchanged, repeated resolver
   * calls yield every row whose parent has the low eight bits of the
   * directory's path, in table order, then every graft whose start path is
   * the directory's whole path, in list order, and then nothing.
   */
  lemma EnumerationFromZero(parentpath: bv64, tab: seq<Dirtab>, tabsize: nat, tps: seq<TransferPoint>)
    requires tabsize <= |tab|
    ensures Listing(0, parentpath, tab, tabsize, tps)
         == StaticMatches(0, FilePath(parentpath), tab, tabsize) + GraftMatches(0, parentpath, tps)
  {
    ListingOfRows(0, parentpath, tab, tabsize, tps);
  }

  /** The row a hit denotes: the table row, or row 0 of the graft's destination table. */
  function HitRow(h: Hit, tab: seq<Dirtab>, tabsize: nat, tps: seq<TransferPoint>): Dirtab
    requires tabsize <= |tab| && GraftsValid(tps) && HitIn(h, tabsize, |tps|)
  {
    match h
    case Row(i) => tab[i]
    case Graft(j) => tps[j].desttable[0]
  }

  /** The name a hit is visible under: the graft's destination name, or the row's name. */
  function HitName(h: Hit, tab: seq<Dirtab>, tabsize: nat, tps: seq<TransferPoint>): string
    requires tabsize <= |tab| && HitIn(h, tabsize, |tps|)
  {
    match h
    case Row(i) => tab[i].name
    case Graft(j) => tps[j].destptr
  }

  /** The handle passed to dt2qid / dt2fid for a hit: the graft's, or NULL for a row. */
  function HitHandle(h: Hit, tabsize: nat, tps: seq<TransferPoint>): (r: Handle)
    requires HitIn(h, tabsize, |tps|)
  {
    match h
    case Row(_) => NoHandle
    case Graft(j) => tps[j].handle
  }

  /** The first hit of a listing that is visible under `wname`. */
  function FirstNamed(hits: seq<Hit>, wname: string, tab: seq<Dirtab>, tabsize: nat,
                      tps: seq<TransferPoint>): (r: Option<Hit>)
    requires tabsize <= |tab| && HitsIn(hits, tabsize, |tps|)
    ensures r.Some? ==> HitIn(r.value, tabsize, |tps|) && HitName(r.value, tab, tabsize, tps) == wname
    ensures r.None? <==> forall k :: 0 <= k < |hits| ==> HitName(hits[k], tab, tabsize, tps) != wname
    decreases |hits|
  {
    if hits == [] then None
    else if HitName(hits[0], tab, tabsize, tps) == wname then Some(hits[0])
    else FirstNamed(hits[1..], wname, tab, tabsize, tps)
  }

  /** The hit FirstNamed picks is the first one in the listing with that name. */
  lemma {:induction false} FirstNamedIsFirst(hits: seq<Hit>, wname: string, tab: seq<Dirtab>, tabsize: nat,
                                             tps: seq<TransferPoint>)
    requires tabsize <= |tab| && HitsIn(hits, tabsize, |tps|)
    requires FirstNamed(hits, wname, tab, tabsize, tps).Some?
    ensures exists k :: (0 <= k < |hits| && hits[k] == FirstNamed(hits, wname, tab, tabsize, tps).value
      && forall i :: 0 <= i < k ==> HitName(hits[i], tab, tabsize, tps) != wname)
    decreases |hits|
  {
    if HitName(hits[0], tab, tabsize, tps) == wname {
      assert hits[0] == FirstNamed(hits, wname, tab, tabsize, tps).value;
    } else {
      var rest := hits[1..];
      FirstNamedIsFirst(rest, wname, tab, tabsize, tps);
      var k :| 0 <= k < |rest| && rest[k] == FirstNamed(rest, wname, tab, tabsize, tps).value
        && forall i :: 0 <= i < k ==> HitName(rest[i], tab, tabsize, tps) != wname;
      assert hits[k + 1] == rest[k];
      forall i | 0 <= i < k + 1
        ensures HitName(hits[i], tab, tabsize, tps) != wname
      {
        if i > 0 {
          assert hits[i] == rest[i - 1];
        }
      }
    }
  }

  /** One resolver step and the listing: its hit leads the listing, and NoChild ends it. */
  lemma ListingStep(offset: nat, parentpath: bv64, tab: seq<Dirtab>, tabsize: nat, tps: seq<TransferPoint>)
    requires tabsize <= |tab|
    ensures var s := NextDirChild(offset, parentpath, tab, tabsize, tps);
      && (s.hit.NoChild? ==> Listing(offset, parentpath, tab, tabsize, tps) == []
                             && ListingEnd(offset, parentpath, tab, tabsize, tps) == s.offset)
      && (!s.hit.NoChild? ==> Listing(offset, parentpath, tab, tabsize, tps)
                                == [s.hit] + Listing(s.offset, parentpath, tab, tabsize, tps)
                              && ListingEnd(offset, parentpath, tab, tabsize, tps)
                                == ListingEnd(s.offset, parentpath, tab, tabsize, tps))
  {
  }

  // ---------------------------------------------------------------------------
  // Stat records

  const GuestMode: bv32 := UserExecMask | UserWriteMask | UserReadMask

  /** The mode of a stat record: owner read, write and execute, plus Dmdir for a directory qid. */
  function StatMode(q: Qid): (m: bv32)
    ensures m & GuestMode == GuestMode && m & !(GuestMode | Dmdir) == 0
    ensures m & Dmdir != 0 <==> IsDirQid(q) != 0
  {
    if IsDirQid(q) != 0 then GuestMode | Dmdir else GuestMode
  }

  /** The stat record the handlers build for a file with this qid and name. */
  function Entry(q: Qid, name: string): (w: Wstat)
    ensures w.qid == q && w.name == name && w.mode == StatMode(q)
    ensures w.atime == 0 && w.mtime == 0 && w.length == 10 && w.extension.None?
    ensures w.uid == "guestuid" && w.gid == "guestgid" && w.muid == "guestmuid"
  {
    Wstat(q, StatMode(q), 0, 0, 10, name, "guestuid", "guestgid", "guestmuid", None)
  }

  /** The directory record of one child: its qid with the hit's handle, and its visible name. */
  function ChildStat(flav: Flavour, h: Hit, tab: seq<Dirtab>, tabsize: nat, tps: seq<TransferPoint>): Wstat
    requires tabsize <= |tab| && GraftsValid(tps) && HitIn(h, tabsize, |tps|)
  {
    Entry(ServerDt2Qid(flav, HitRow(h, tab, tabsize, tps), HitHandle(h, tabsize, tps)), HitName(h, tab, tabsize, tps))
  }

  /** np_serialize_stat is not shown: a parameter that writes at most `limit` bytes. */
  type Serializer = (Wstat, nat, int) -> seq<bv8>

  ghost predicate SerializerBounded(ser: Serializer)
  {
    forall w, limit, dotu :: |ser(w, limit, dotu)| <= limit
  }

  /** The directory records of a listing, one per child, in order. */
  function Records(flav: Flavour, hits: seq<Hit>, tab: seq<Dirtab>, tabsize: nat, tps: seq<TransferPoint>)
    : (r: seq<Wstat>)
    requires tabsize <= |tab| && GraftsValid(tps) && HitsIn(hits, tabsize, |tps|)
    ensures |r| == |hits|
    decreases |hits|
  {
    if hits == [] then [] else [ChildStat(flav, hits[0], tab, tabsize, tps)] + Records(flav, hits[1..], tab, tabsize, tps)
  }

  /**
   * The bytes the read-dir loop writes for these records, starting with `n`
   * bytes already written: each record is serialised into the room left
   * minus one byte, and a record that does not fit yields nothing.
   */
  function Emit(recs: seq<Wstat>, n: nat, count: nat, dotu: int, ser: Serializer): (r: seq<bv8>)
    requires n < count && SerializerBounded(ser)
    ensures n + |r| < count
    decreases |recs|
  {
    if recs == [] then []
    else
      var b := ser(recs[0], count - n - 1, dotu);
      b + Emit(recs[1..], n + |b|, count, dotu, ser)
  }

  /** Emitting records with a first one: its bytes, then the rest with the room that is left. */
  lemma EmitCons(w: Wstat, rest: seq<Wstat>, n: nat, count: nat, dotu: int, ser: Serializer)
    requires n < count && SerializerBounded(ser)
    ensures var b := ser(w, count - n - 1, dotu);
      Emit([w] + rest, n, count, dotu, ser) == b + Emit(rest, n + |b|, count, dotu, ser)
  {
    assert ([w] + rest)[1..] == rest;
  }

  /**
   * What the read-dir loop as written returns from cursor `start`: each
   * remaining child's record that fits in the room left.  A record that
   * does not fit is dropped, and the cursor has already passed it.
   */
  function DirBytes(flav: Flavour, start: nat, path: bv64, count: nat, dotu: int, tab: seq<Dirtab>, tabsize: nat,
                    tps: seq<TransferPoint>, ser: Serializer): (r: seq<bv8>)
    requires tabsize <= |tab| && GraftsValid(tps) && SerializerBounded(ser)
    ensures |r| < count || (count == 0 && r == [])
  {
    if count == 0 then [] else Emit(Records(flav, Listing(start, path, tab, tabsize, tps), tab, tabsize, tps), 0, count, dotu, ser)
  }

  /** A record for every child at once: ChildStat for a hit in range, a blank entry otherwise. */
  function ChildStats(flav: Flavour, tab: seq<Dirtab>, tabsize: nat, tps: seq<TransferPoint>): Hit -> Wstat
    requires tabsize <= |tab| && GraftsValid(tps)
  {
    h => if HitIn(h, tabsize, |tps|) then ChildStat(flav, h, tab, tabsize, tps) else Entry(Qid(0, 0, 0), "")
  }

  /** ChildStats gives each child in range its directory record. */
  lemma ChildStatsAt(flav: Flavour, tab: seq<Dirtab>, tabsize: nat, tps: seq<TransferPoint>, h: Hit)
    requires tabsize <= |tab| && GraftsValid(tps) && HitIn(h, tabsize, |tps|)
    ensures ChildStats(flav, tab, tabsize, tps)(h) == ChildStat(flav, h, tab, tabsize, tps)
  {
  }

  /** The records `stat` gives the hits, in order. */
  function StatsOf(stat: Hit -> Wstat, hits: seq<Hit>): (r: seq<Wstat>)
    ensures |r| == |hits| && forall k :: 0 <= k < |hits| ==> r[k] == stat(hits[k])
  {
    seq(|hits|, k requires 0 <= k < |hits| => stat(hits[k]))
  }

  /**
   * The corrected directory read from cursor `cur` with `n` bytes already
   * written, `stat` giving each child's record: the bytes and the cursor
   * it leaves.  Records follow in listing order while each fits; at the
   * first one that does not, the read stops with the cursor on that child,
   * so that the next read resumes there.
   */
  function FitRead(stat: Hit -> Wstat, cur: nat, path: bv64, n: nat, count: nat, dotu: int, tab: seq<Dirtab>,
                   tabsize: nat, tps: seq<TransferPoint>, ser: Serializer): (r: (seq<bv8>, nat))
    requires tabsize <= |tab| && SerializerBounded(ser) && n < count
    ensures n + |r.0| < count
    decreases tabsize + |tps| - cur
  {
    var s := NextDirChild(cur, path, tab, tabsize, tps);
    if s.hit.NoChild? then ([], s.offset)
    else
      var b := ser(stat(s.hit), count - n - 1, dotu);
      if b == [] then ([], cur)
      else
        var rest := FitRead(stat, s.offset, path, n + |b|, count, dotu, tab, tabsize, tps, ser);
        (b + rest.0, rest.1)
  }

  /** A turn of the corrected read whose record fits: that record, then the read from the next cursor. */
  lemma FitReadFits(stat: Hit -> Wstat, cur: nat, path: bv64, n: nat, count: nat, dotu: int, tab: seq<Dirtab>,
                    tabsize: nat, tps: seq<TransferPoint>, ser: Serializer, h: Hit, next: nat, b: seq<bv8>)
    requires tabsize <= |tab| && SerializerBounded(ser) && n < count
    requires NextDirChild(cur, path, tab, tabsize, tps) == Step(h, next) && !h.NoChild?
    requires b == ser(stat(h), count - n - 1, dotu) && b != []
    ensures n + |b| < count
    ensures var rest := FitRead(stat, next, path, n + |b|, count, dotu, tab, tabsize, tps, ser);
      FitRead(stat, cur, path, n, count, dotu, tab, tabsize, tps, ser) == (b + rest.0, rest.1)
  {
  }

  /** A turn of the corrected read that writes nothing: NoChild ends it, a record that does not fit stops it. */
  lemma FitReadStops(stat: Hit -> Wstat, cur: nat, path: bv64, n: nat, count: nat, dotu: int, tab: seq<Dirtab>,
                     tabsize: nat, tps: seq<TransferPoint>, ser: Serializer, h: Hit, next: nat)
    requires tabsize <= |tab| && SerializerBounded(ser) && n < count
    requires NextDirChild(cur, path, tab, tabsize, tps) == Step(h, next)
    ensures h.NoChild? ==> FitRead(stat, cur, path, n, count, dotu, tab, tabsize, tps, ser) == ([], next)
    ensures !h.NoChild? && ser(stat(h), count - n - 1, dotu) == [] ==>
      FitRead(stat, cur, path, n, count, dotu, tab, tabsize, tps, ser) == ([], cur)
  {
  }

  /**
   * The corrected read from `cur` loses no child: the listing from `cur` is
   * the children whose records were written, in order, followed by the
   * listing from the cursor it leaves; the bytes are exactly those records;
   * when children remain, the first of them is one whose record did not fit
   * in the room left; and when none remain the cursor is where the listing
   * ends.
   */
  ghost predicate Resumes(stat: Hit -> Wstat, cur: nat, path: bv64, n: nat, count: nat, dotu: int,
                          tab: seq<Dirtab>, tabsize: nat, tps: seq<TransferPoint>, ser: Serializer)
    requires tabsize <= |tab| && SerializerBounded(ser) && n < count
  {
    var r := FitRead(stat, cur, path, n, count, dotu, tab, tabsize, tps, ser);
    var left := Listing(r.1, path, tab, tabsize, tps);
    && SplitRead(stat, Listing(cur, path, tab, tabsize, tps), left, r.0, n, count, dotu, ser)
    && (|left| == 0 ==> r.1 == ListingEnd(cur, path, tab, tabsize, tps))
  }

  /**
   * Resumes on plain values: `all` is the children written, then `left`;
   * `bytes` are the written children's records; and the first child left,
   * if any, is one whose record does not fit in the room after `bytes`.
   */
  ghost predicate SplitRead(stat: Hit -> Wstat, all: seq<Hit>, left: seq<Hit>, bytes: seq<bv8>,
                            n: nat, count: nat, dotu: int, ser: Serializer)
    requires SerializerBounded(ser) && n < count
  {
    && |left| <= |all|
    && all == all[..|all| - |left|] + left
    && bytes == Emit(StatsOf(stat, all[..|all| - |left|]), n, count, dotu, ser)
    && (|left| > 0 ==> n + |bytes| < count && ser(stat(left[0]), count - n - |bytes| - 1, dotu) == [])
  }

  /** Resumes where the resolver finds no child. */
  lemma ResumesAtEnd(stat: Hit -> Wstat, cur: nat, path: bv64, n: nat, count: nat, dotu: int,
                     tab: seq<Dirtab>, tabsize: nat, tps: seq<TransferPoint>, ser: Serializer)
    requires tabsize <= |tab| && SerializerBounded(ser) && n < count
    requires NextDirChild(cur, path, tab, tabsize, tps).hit.NoChild?
    ensures Resumes(stat, cur, path, n, count, dotu, tab, tabsize, tps, ser)
  {
    var s := NextDirChild(cur, path, tab, tabsize, tps);
    FitReadStops(stat, cur, path, n, count, dotu, tab, tabsize, tps, ser, s.hit, s.offset);
    ListingStep(cur, path, tab, tabsize, tps);
    ListingStep(s.offset, path, tab, tabsize, tps);
    assert NextDirChild(s.offset, path, tab, tabsize, tps).hit.NoChild?;
    var all := Listing(cur, path, tab, tabsize, tps);
    assert all[..0] == [];
  }

  /** Resumes where the first child's record does not fit. */
  lemma ResumesAtMisfit(stat: Hit -> Wstat, cur: nat, path: bv64, n: nat, count: nat, dotu: int,
                        tab: seq<Dirtab>, tabsize: nat, tps: seq<TransferPoint>, ser: Serializer)
    requires tabsize <= |tab| && SerializerBounded(ser) && n < count
    requires var s := NextDirChild(cur, path, tab, tabsize, tps);
      !s.hit.NoChild? && ser(stat(s.hit), count - n - 1, dotu) == []
    ensures Resumes(stat, cur, path, n, count, dotu, tab, tabsize, tps, ser)
  {
    var s := NextDirChild(cur, path, tab, tabsize, tps);
    var all := Listing(cur, path, tab, tabsize, tps);
    FitReadStops(stat, cur, path, n, count, dotu, tab, tabsize, tps, ser, s.hit, s.offset);
    ListingStep(cur, path, tab, tabsize, tps);
    assert all[..0] == [];
  }

  /** Resumes holds at a turn whose record fits, by Resumes from the cursor after it. */
  lemma {:induction false} ResumesOverFit(stat: Hit -> Wstat, cur: nat, path: bv64, n: nat, count: nat, dotu: int,
                                          tab: seq<Dirtab>, tabsize: nat, tps: seq<TransferPoint>, ser: Serializer,
                                          h: Hit, next: nat, b: seq<bv8>)
    requires tabsize <= |tab| && SerializerBounded(ser) && n < count
    requires NextDirChild(cur, path, tab, tabsize, tps) == Step(h, next) && !h.NoChild?
    requires b == ser(stat(h), count - n - 1, dotu) && b != []
    ensures Resumes(stat, cur, path, n, count, dotu, tab, tabsize, tps, ser)
    decreases tabsize + |tps| - cur, 0
  {
    assert n + |b| < count;
    var rest := FitRead(stat, next, path, n + |b|, count, dotu, tab, tabsize, tps, ser);
    var tail := Listing(next, path, tab, tabsize, tps);
    var left := Listing(rest.1, path, tab, tabsize, tps);
    var r := FitRead(stat, cur, path, n, count, dotu, tab, tabsize, tps, ser);
    assert SplitRead(stat, tail, left, rest.0, n + |b|, count, dotu, ser)
        && (|left| == 0 ==> rest.1 == ListingEnd(next, path, tab, tabsize, tps)) by {
      ResumesFrom(stat, next, path, n + |b|, count, dotu, tab, tabsize, tps, ser);
    }
    assert r == (b + rest.0, rest.1) by {
      FitReadFits(stat, cur, path, n, count, dotu, tab, tabsize, tps, ser, h, next, b);
    }
    assert Listing(cur, path, tab, tabsize, tps) == [h] + tail
        && ListingEnd(cur, path, tab, tabsize, tps) == ListingEnd(next, path, tab, tabsize, tps) by {
      ListingStep(cur, path, tab, tabsize, tps);
    }
    SplitReadCons(stat, h, tail, left, b, rest.0, n, count, dotu, ser);
  }

  /** SplitRead carries back over a record that fits. */
  lemma SplitReadCons(stat: Hit -> Wstat, h: Hit, tail: seq<Hit>, left: seq<Hit>, b: seq<bv8>, restBytes: seq<bv8>,
                      n: nat, count: nat, dotu: int, ser: Serializer)
    requires SerializerBounded(ser) && n + |b| < count && b == ser(stat(h), count - n - 1, dotu)
    requires SplitRead(stat, tail, left, restBytes, n + |b|, count, dotu, ser)
    ensures SplitRead(stat, [h] + tail, left, b + restBytes, n, count, dotu, ser)
  {
    var given := tail[..|tail| - |left|];
    var all := [h] + tail;
    assert all[..|all| - |left|] == [h] + given;
    StatsOfCons(stat, h, given);
    EmitCons(stat(h), StatsOf(stat, given), n, count, dotu, ser);
  }

  lemma StatsOfCons(stat: Hit -> Wstat, h: Hit, hits: seq<Hit>)
    ensures StatsOf(stat, [h] + hits) == [stat(h)] + StatsOf(stat, hits)
  {
  }

  /**
   * The corrected read loses no child: the listing from `cur` is the
   * children whose records were written, in order, followed by the listing
   * from the cursor it leaves; the bytes are exactly those records; when
   * children remain, the first of them is one whose record did not fit in
   * the room left; and when none remain the cursor is where the listing
   * ends.
   */
  lemma {:induction false} FitReadResumes(stat: Hit -> Wstat, cur: nat, path: bv64, n: nat, count: nat, dotu: int,
                                          tab: seq<Dirtab>, tabsize: nat, tps: seq<TransferPoint>, ser: Serializer)
    requires tabsize <= |tab| && SerializerBounded(ser) && n < count
    ensures var r := FitRead(stat, cur, path, n, count, dotu, tab, tabsize, tps, ser);
      var all := Listing(cur, path, tab, tabsize, tps);
      var left := Listing(r.1, path, tab, tabsize, tps);
      && |left| <= |all|
      && all == all[..|all| - |left|] + left
      && r.0 == Emit(StatsOf(stat, all[..|all| - |left|]), n, count, dotu, ser)
      && (|left| > 0 ==> ser(stat(left[0]), count - n - |r.0| - 1, dotu) == [])
      && (|left| == 0 ==> r.1 == ListingEnd(cur, path, tab, tabsize, tps))
  {
    ResumesFrom(stat, cur, path, n, count, dotu, tab, tabsize, tps, ser);
  }

  /** The induction behind FitReadResumes, one resolver step at a time. */
  lemma {:induction false} ResumesFrom(stat: Hit -> Wstat, cur: nat, path: bv64, n: nat, count: nat, dotu: int,
                                       tab: seq<Dirtab>, tabsize: nat, tps: seq<TransferPoint>, ser: Serializer)
    requires tabsize <= |tab| && SerializerBounded(ser) && n < count
    ensures Resumes(stat, cur, path, n, count, dotu, tab, tabsize, tps, ser)
    decreases tabsize + |tps| - cur, 1
  {
    var s := NextDirChild(cur, path, tab, tabsize, tps);
    if s.hit.NoChild? {
      ResumesAtEnd(stat, cur, path, n, count, dotu, tab, tabsize, tps, ser);
    } else {
      var b := ser(stat(s.hit), count - n - 1, dotu);
      if b == [] {
        ResumesAtMisfit(stat, cur, path, n, count, dotu, tab, tabsize, tps, ser);
      } else {
        ResumesOverFit(stat, cur, path, n, count, dotu, tab, tabsize, tps, ser, s.hit, s.offset, b);
      }
    }
  }

  /** A root row with two file children, "a" and "b", and no grafts. */
  const TwoFiles: seq<Dirtab> := [
    Dirtab("root", 0, Qtdir, 0xff, FileOps(None, None, None)),
    Dirtab("a", 1, Qtfile, 0, FileOps(None, None, None)),
    Dirtab("b", 2, Qtfile, 0, FileOps(None, None, None))]

  /** A serialiser whose every record is ten bytes, writing nothing when fewer fit. */
  const TenByteRecords: Serializer := (w: Wstat, limit: nat, dotu: int) =>
    if limit >= 10 then seq(10, _ => 0 as bv8) else []

  lemma TenByteRecordsBounded()
    ensures SerializerBounded(TenByteRecords)
  {
    forall w, limit, dotu
      ensures |TenByteRecords(w, limit, dotu)| <= limit
    {
    }
  }

  /** The two-file root lists "a" then "b", and its listing ends at cursor 3. */
  lemma TwoFilesListing()
    ensures Listing(0, 0, TwoFiles, 3, []) == [Row(1), Row(2)]
    ensures Listing(2, 0, TwoFiles, 3, []) == [Row(2)]
    ensures ListingEnd(0, 0, TwoFiles, 3, []) == 3 && Listing(3, 0, TwoFiles, 3, []) == []
  {
    assert NextDirChild(3, 0, TwoFiles, 3, []) == Step(NoChild, 3);
    ListingStep(3, 0, TwoFiles, 3, []);
    assert NextDirChild(2, 0, TwoFiles, 3, []) == Step(Row(2), 3);
    ListingStep(2, 0, TwoFiles, 3, []);
    assert NextDirChild(0, 0, TwoFiles, 3, []) == Step(Row(1), 2);
    ListingStep(0, 0, TwoFiles, 3, []);
  }

  /**
   * The loop as written loses a child: reading the two-file root with room
   * for 12 bytes writes "a"'s record, drops "b"'s, which does not fit, and
   * leaves the cursor past both, so the next read from that cursor lists
   * nothing.
   */
  lemma ReadLosesRecord()
    ensures SerializerBounded(TenByteRecords)
    ensures Listing(0, 0, TwoFiles, 3, []) == [Row(1), Row(2)]
    ensures |DirBytes(NetServer, 0, 0, 12, 0, TwoFiles, 3, [], TenByteRecords)| == 10
    ensures ListingEnd(0, 0, TwoFiles, 3, []) == 3 && Listing(3, 0, TwoFiles, 3, []) == []
  {
    TenByteRecordsBounded();
    TwoFilesListing();
    var w1 := ChildStat(NetServer, Row(1), TwoFiles, 3, []);
    var w2 := ChildStat(NetServer, Row(2), TwoFiles, 3, []);
    var recs := Records(NetServer, [Row(1), Row(2)], TwoFiles, 3, []);
    assert recs == [w1, w2] by {
      assert [Row(1), Row(2)][1..] == [Row(2)];
    }
    EmitCons(w1, [w2], 0, 12, 0, TenByteRecords);
    EmitCons(w2, [], 10, 12, 0, TenByteRecords);
  }

  /**
   * The corrected read of the same directory writes the same 10 bytes but
   * leaves the cursor on "b", which the next read then lists.
   */
  lemma FitReadKeepsRecord()
    ensures SerializerBounded(TenByteRecords)
    ensures var r := FitRead(ChildStats(NetServer, TwoFiles, 3, []), 0, 0, 0, 12, 0, TwoFiles, 3, [], TenByteRecords);
      |r.0| == 10 && r.1 == 2
    ensures Listing(2, 0, TwoFiles, 3, []) == [Row(2)]
  {
    TenByteRecordsBounded();
    TwoFilesListing();
    var stat := ChildStats(NetServer, TwoFiles, 3, []);
    assert NextDirChild(0, 0, TwoFiles, 3, []) == Step(Row(1), 2);
    assert NextDirChild(2, 0, TwoFiles, 3, []) == Step(Row(2), 3);
    var b := TenByteRecords(stat(Row(1)), 11, 0);
    assert |b| == 10;
    FitReadFits(stat, 0, 0, 0, 12, 0, TwoFiles, 3, [], TenByteRecords, Row(1), 2, b);
    assert TenByteRecords(stat(Row(2)), 1, 0) == [];
    FitReadStops(stat, 2, 0, 10, 12, 0, TwoFiles, 3, [], TenByteRecords, Row(2), 3);
  }

  // ---------------------------------------------------------------------------
  // The handlers

  /** The server's dirtab state: the table served at attach and the protocol flag. */
  class Server {
    const flavour: Flavour
    var dotu: int
    var maintab: seq<Dirtab>
    var maintabsize: nat
    /** whether the dirtab handlers are installed in the server */
    var installed: bool

    constructor (flav: Flavour)
      ensures flavour == flav && !installed
    {
      flavour := flav;
      dotu := 0;
      maintab := [];
      maintabsize := 0;
      installed := false;
    }

    /** npfile_init_dirtab: plain 9P2000, the dirtab handlers, and the table to serve. */
    method InitDirtab(dt: seq<Dirtab>, tabsize: nat)
      modifies this
      ensures dotu == 0 && installed && maintab == dt && maintabsize == tabsize
    {
      dotu := 0;
      installed := true;
      maintab := dt;
      maintabsize := tabsize;
    }
  }

  /**
   * dirtab_attach: with an auth fid, fail with Enoauth and create nothing;
   * otherwise a fresh fid on row 0 of the main table, scoped to that table,
   * whose qid is the one returned.
   */
  method Attach(srv: Server, hasAuthFid: bool) returns (r: Result<Qid>, f: Fid?)
    requires |srv.maintab| > 0 && srv.maintabsize <= |srv.maintab|
    ensures hasAuthFid ==> r == Err(NoAuth) && f == null
    ensures !hasAuthFid ==> f != null && fresh(f) && f.Valid()
    ensures !hasAuthFid ==> (f != null && r == Ok(f.qid)
      && f.qid == ServerDt2Qid(srv.flavour, srv.maintab[0], NoHandle)
      && f.dt == srv.maintab[0] && f.filename == srv.maintab[0].name
      && f.parenttab == srv.maintab && f.parenttabsize == srv.maintabsize
      && f.omode == -1 && f.offset == 0)
  {
    if hasAuthFid {
      return Err(NoAuth), null;
    }
    f := new Fid.Alloc();
    assert NetQid.ConnIndex(f.qid.path) == 0;
    ServerDt2Fid(srv.flavour, srv.maintab[0], f, srv.maintab[0].name, NoHandle);
    f.dt := srv.maintab[0];
    f.parenttab := srv.maintab;
    f.parenttabsize := srv.maintabsize;
    r := Ok(f.qid);
  }

  /**
   * dirtab_clone: a fresh fid with the same name, qid, row and scope; its
   * offset and open mode start afresh whatever the original's.
   */
  method Clone(f: Fid) returns (nf: Fid)
    requires f.Valid()
    ensures fresh(nf) && nf.Valid()
    ensures nf.filename == f.filename && nf.qid == f.qid && nf.dt == f.dt
    ensures nf.parenttab == f.parenttab && nf.parenttabsize == f.parenttabsize
    ensures nf.offset == 0 && nf.omode == -1
  {
    nf := new Fid.Alloc();
    nf.filename := f.filename;
    nf.qid := f.qid;
    nf.dt := f.dt;
    nf.parenttab := f.parenttab;
    nf.parenttabsize := f.parenttabsize;
  }

  /**
   * The found branch of dirtab_walk: build the answer with the hit's
   * handle, point the fid at the hit's row under its visible name, and
   * through a graft rescope the fid to the destination table.
   */
  method Enter(flav: Flavour, f: Fid, h: Hit, tab: seq<Dirtab>, size: nat, tps: seq<TransferPoint>)
    returns (q: Qid)
    requires size <= |tab| && GraftsValid(tps) && HitIn(h, size, |tps|)
    modifies f
    ensures q == ServerDt2Qid(flav, HitRow(h, tab, size, tps), HitHandle(h, size, tps))
    ensures f.qid == FidQidAfter(flav, old(f.qid.path), HitRow(h, tab, size, tps), HitHandle(h, size, tps))
    ensures f.filename == HitName(h, tab, size, tps) && f.dt == HitRow(h, tab, size, tps)
    ensures f.omode == old(f.omode) && f.offset == old(f.offset)
    ensures h.Row? ==> f.parenttab == old(f.parenttab) && f.parenttabsize == old(f.parenttabsize)
    ensures h.Graft? ==> f.parenttab == tps[h.j].desttable && f.parenttabsize == tps[h.j].desttablesize
  {
    var dt := HitRow(h, tab, size, tps);
    var handle := HitHandle(h, size, tps);
    q := ServerDt2Qid(flav, dt, handle);
    ServerDt2Fid(flav, dt, f, HitName(h, tab, size, tps), handle);
    f.dt := dt;
    if h.Graft? {
      f.parenttab := tps[h.j].desttable;
      f.parenttabsize := tps[h.j].desttablesize;
    }
  }

  /**
   * dirtab_walk: move the fid to the first child, in enumeration order,
   * visible under `wname`, and answer its qid built with the hit's handle.
   * Through a graft the fid's scope becomes the destination table.  With no
   * such child, fail with ENOENT and leave the fid as it was.
   */
  method Walk(flav: Flavour, f: Fid, wname: string, reg: Registry) returns (r: Result<Qid>)
    requires f.Valid() && GraftsValid(reg.list)
    modifies f
    ensures f.Valid()
    ensures var tab, size := old(f.parenttab), old(f.parenttabsize);
      var m := FirstNamed(Listing(0, old(f.qid.path), tab, size, reg.list), wname, tab, size, reg.list);
      m.None? ==> r == Err(ENOENT) && unchanged(f)
    ensures var tab, size := old(f.parenttab), old(f.parenttabsize);
      var m := FirstNamed(Listing(0, old(f.qid.path), tab, size, reg.list), wname, tab, size, reg.list);
      m.Some? ==> (
        var h := m.value;
        var dt := HitRow(h, tab, size, reg.list);
        var handle := HitHandle(h, size, reg.list);
        && r == Ok(ServerDt2Qid(flav, dt, handle))
        && f.qid == FidQidAfter(flav, old(f.qid.path), dt, handle)
        && f.filename == wname && f.dt == dt
        && f.omode == old(f.omode) && f.offset == old(f.offset)
        && (h.Row? ==> f.parenttab == tab && f.parenttabsize == size)
        && (h.Graft? ==> f.parenttab == reg.list[h.j].desttable
                         && f.parenttabsize == reg.list[h.j].desttablesize))
  {
    var tab, size, path, tps := f.parenttab, f.parenttabsize, f.qid.path, reg.list;
    ghost var target := FirstNamed(Listing(0, path, tab, size, tps), wname, tab, size, tps);
    var offset := 0;
    while true
      invariant offset <= size + |tps|
      invariant target == FirstNamed(Listing(offset, path, tab, size, tps), wname, tab, size, tps)
      invariant unchanged(f)
      decreases size + |tps| - offset
    {
      var hit, next := FindNextDirChild(offset, path, tab, size, tps);
      ListingStep(offset, path, tab, size, tps);
      if hit.NoChild? {
        return Err(ENOENT);
      }
      if wname == HitName(hit, tab, size, tps) {
        assert target == Some(hit);
        var q := Enter(flav, f, hit, tab, size, tps);
        return Ok(q);
      }
      assert Listing(offset, path, tab, size, tps)[1..] == Listing(next, path, tab, size, tps);
      offset := next;
    }
  }

  /**
   * dirtab_open: record the open mode, then hand over to the row's open
   * operation if it has one, or answer the fid's qid.
   */
  method Open(f: Fid, mode: bv8) returns (r: Reply<Qid, OpenOp>)
    modifies f`omode
    ensures f.omode == mode as int
    ensures f.dt.fops.open.Some? ==> r == Delegated(f.dt.fops.open.value)
    ensures f.dt.fops.open.None? ==> r == Done(f.qid)
  {
    f.omode := mode as int;
    if f.dt.fops.open.Some? {
      return Delegated(f.dt.fops.open.value);
    }
    return Done(f.qid);
  }

  /** dirtab_stat: the fid's own qid and name, with the mode its qid calls for. */
  function Stat(f: Fid): (w: Wstat)
    reads f
    ensures w.qid == f.qid && w.name == f.filename
    ensures w.mode & Dmdir != 0 <==> f.qid.qtype & Qtdir != 0
    ensures w.mode & GuestMode == GuestMode && w.length == 10
  {
    Entry(f.qid, f.filename)
  }

  /**
   * dirtab_read_dir, corrected: rewind the fid's cursor when the requested
   * offset is 0, otherwise resume from it; then serialise one record per
   * child while each fits, leaving the cursor on the first that does not.
   */
  method ReadDir(flav: Flavour, f: Fid, offset: nat, count: nat, dotu: int, fstable: seq<Dirtab>, nelem: nat,
                 reg: Registry, ser: Serializer) returns (data: seq<bv8>)
    requires nelem <= |fstable| && GraftsValid(reg.list) && SerializerBounded(ser)
    modifies f`offset
    ensures var start := if offset == 0 then 0 else old(f.offset);
      (data, f.offset) == DirRead(flav, start, f.qid.path, count, dotu, fstable, nelem, reg.list, ser)
  {
    if offset == 0 {
      f.offset := 0;
    }
    data := [];
    if count > 0 {
      data := ReadFitting(flav, f, count, dotu, fstable, nelem, reg.list, ser);
    }
  }

  /**
   * The loop invariant of dirtab_read_dir: what is written so far, followed
   * by the records of the children still to come, is the whole answer.
   */
  ghost predicate ReadInvariant(flav: Flavour, cur: nat, path: bv64, data: seq<bv8>, count: nat, dotu: int,
                                tab: seq<Dirtab>, tabsize: nat, tps: seq<TransferPoint>, ser: Serializer,
                                all: seq<bv8>, end: nat)
    requires tabsize <= |tab| && GraftsValid(tps) && SerializerBounded(ser)
  {
    && |data| < count
    && data + Emit(Records(flav, Listing(cur, path, tab, tabsize, tps), tab, tabsize, tps), |data|, count, dotu, ser) == all
    && ListingEnd(cur, path, tab, tabsize, tps) == end
  }

  /** At NoChild the read-dir loop's answer is complete and the cursor is where the listing ends. */
  lemma ReadStepDone(flav: Flavour, cur: nat, path: bv64, data: seq<bv8>, count: nat, dotu: int,
                     tab: seq<Dirtab>, tabsize: nat, tps: seq<TransferPoint>, ser: Serializer,
                     all: seq<bv8>, end: nat)
    requires tabsize <= |tab| && GraftsValid(tps) && SerializerBounded(ser)
    requires ReadInvariant(flav, cur, path, data, count, dotu, tab, tabsize, tps, ser, all, end)
    requires NextDirChild(cur, path, tab, tabsize, tps).hit.NoChild?
    ensures data == all && NextDirChild(cur, path, tab, tabsize, tps).offset == end
  {
    ListingStep(cur, path, tab, tabsize, tps);
  }

  /** The records of a listing whose first step finds a child: that child's record, then the rest. */
  lemma RecordsStep(flav: Flavour, cur: nat, path: bv64, tab: seq<Dirtab>, tabsize: nat, tps: seq<TransferPoint>,
                    h: Hit, next: nat)
    requires tabsize <= |tab| && GraftsValid(tps)
    requires NextDirChild(cur, path, tab, tabsize, tps) == Step(h, next) && !h.NoChild?
    ensures HitIn(h, tabsize, |tps|)
    ensures Records(flav, Listing(cur, path, tab, tabsize, tps), tab, tabsize, tps)
         == [ChildStat(flav, h, tab, tabsize, tps)] + Records(flav, Listing(next, path, tab, tabsize, tps), tab, tabsize, tps)
    ensures ListingEnd(cur, path, tab, tabsize, tps) == ListingEnd(next, path, tab, tabsize, tps)
  {
    ListingStep(cur, path, tab, tabsize, tps);
    var l := Listing(cur, path, tab, tabsize, tps);
    assert l[0] == h && l[1..] == Listing(next, path, tab, tabsize, tps);
  }

  /**
   * A turn of the read-dir loop that serialises record w: what is written,
   * followed by the records still to come, is still the whole answer.
   */
  lemma EmitStep(data: seq<bv8>, w: Wstat, recs: seq<Wstat>, count: nat, dotu: int, ser: Serializer, all: seq<bv8>)
    requires |data| < count && SerializerBounded(ser)
    requires data + Emit([w] + recs, |data|, count, dotu, ser) == all
    ensures var b := ser(w, count - |data| - 1, dotu);
      |data + b| < count && (data + b) + Emit(recs, |data + b|, count, dotu, ser) == all
  {
    var b := ser(w, count - |data| - 1, dotu);
    var tail := Emit(recs, |data| + |b|, count, dotu, ser);
    EmitCons(w, recs, |data|, count, dotu, ser);
    assert data + (b + tail) == (data + b) + tail;
  }

  /** The loop of dirtab_read_dir, from the fid's cursor with room for `count` bytes. */
  method ReadEntries(flav: Flavour, f: Fid, count: nat, dotu: int, fstable: seq<Dirtab>, nelem: nat,
                     tps: seq<TransferPoint>, ser: Serializer) returns (data: seq<bv8>)
    requires 0 < count && nelem <= |fstable| && GraftsValid(tps) && SerializerBounded(ser)
    modifies f`offset
    ensures data == Emit(Records(flav, Listing(old(f.offset), f.qid.path, fstable, nelem, tps), fstable, nelem, tps),
                         0, count, dotu, ser)
    ensures f.offset == ListingEnd(old(f.offset), f.qid.path, fstable, nelem, tps)
  {
    var path := f.qid.path;
    var cur := f.offset;
    ghost var all := Emit(Records(flav, Listing(cur, path, fstable, nelem, tps), fstable, nelem, tps), 0, count, dotu, ser);
    ghost var end := ListingEnd(cur, path, fstable, nelem, tps);
    data := [];
    while |data| < count
      invariant path == f.qid.path && f.offset == cur
      invariant ReadInvariant(flav, cur, path, data, count, dotu, fstable, nelem, tps, ser, all, end)
      decreases nelem + |tps| - cur
    {
      var hit, next := FindNextDirChild(cur, path, fstable, nelem, tps);
      if hit.NoChild? {
        ReadStepDone(flav, cur, path, data, count, dotu, fstable, nelem, tps, ser, all, end);
        f.offset := next;
        break;
      }
      RecordsStep(flav, cur, path, fstable, nelem, tps, hit, next);
      var w := ChildStat(flav, hit, fstable, nelem, tps);
      EmitStep(data, w, Records(flav, Listing(next, path, fstable, nelem, tps), fstable, nelem, tps), count, dotu, ser, all);
      var b := ser(w, count - |data| - 1, dotu);
      cur := next;
      f.offset := cur;
      data := data + b;
    }
  }

  /**
   * A corrected directory read from cursor `start` with room for `count`
   * bytes: nothing, and the cursor unmoved, for a count of 0; otherwise
   * the fitting records of the children from `start`.
   */
  function DirRead(flav: Flavour, start: nat, path: bv64, count: nat, dotu: int, tab: seq<Dirtab>, tabsize: nat,
                   tps: seq<TransferPoint>, ser: Serializer): (r: (seq<bv8>, nat))
    requires tabsize <= |tab| && GraftsValid(tps) && SerializerBounded(ser)
    ensures count == 0 ==> r == ([], start)
    ensures count > 0 ==> |r.0| < count
  {
    if count == 0 then ([], start)
    else FitRead(ChildStats(flav, tab, tabsize, tps), start, path, 0, count, dotu, tab, tabsize, tps, ser)
  }

  /**
   * The loop invariant of the corrected read: what is written so far,
   * followed by what the read still writes from the cursor, is the whole
   * answer, and the read still ends at the answer's cursor.
   */
  ghost predicate FitInvariant(stat: Hit -> Wstat, cur: nat, path: bv64, data: seq<bv8>, count: nat, dotu: int,
                               tab: seq<Dirtab>, tabsize: nat, tps: seq<TransferPoint>, ser: Serializer,
                               all: (seq<bv8>, nat))
    requires tabsize <= |tab| && SerializerBounded(ser)
  {
    && |data| < count
    && var r := FitRead(stat, cur, path, |data|, count, dotu, tab, tabsize, tps, ser);
    && data + r.0 == all.0 && r.1 == all.1
  }

  /** A turn of the corrected loop whose record fits keeps the invariant. */
  lemma FitInvariantStep(stat: Hit -> Wstat, cur: nat, path: bv64, data: seq<bv8>, count: nat, dotu: int,
                         tab: seq<Dirtab>, tabsize: nat, tps: seq<TransferPoint>, ser: Serializer,
                         all: (seq<bv8>, nat), h: Hit, next: nat, b: seq<bv8>)
    requires tabsize <= |tab| && SerializerBounded(ser)
    requires FitInvariant(stat, cur, path, data, count, dotu, tab, tabsize, tps, ser, all)
    requires NextDirChild(cur, path, tab, tabsize, tps) == Step(h, next) && !h.NoChild?
    requires b == ser(stat(h), count - |data| - 1, dotu) && b != []
    ensures FitInvariant(stat, next, path, data + b, count, dotu, tab, tabsize, tps, ser, all)
  {
    var n := |data|;
    FitReadFits(stat, cur, path, n, count, dotu, tab, tabsize, tps, ser, h, next, b);
    var rest := FitRead(stat, next, path, n + |b|, count, dotu, tab, tabsize, tps, ser);
    assert |data + b| == n + |b|;
    assert data + (b + rest.0) == (data + b) + rest.0;
  }

  /** Where the corrected loop stops, the answer is complete. */
  lemma FitInvariantDone(stat: Hit -> Wstat, cur: nat, path: bv64, data: seq<bv8>, count: nat, dotu: int,
                         tab: seq<Dirtab>, tabsize: nat, tps: seq<TransferPoint>, ser: Serializer,
                         all: (seq<bv8>, nat), h: Hit, next: nat)
    requires tabsize <= |tab| && SerializerBounded(ser)
    requires FitInvariant(stat, cur, path, data, count, dotu, tab, tabsize, tps, ser, all)
    requires NextDirChild(cur, path, tab, tabsize, tps) == Step(h, next)
    ensures h.NoChild? ==> data == all.0 && next == all.1
    ensures !h.NoChild? && ser(stat(h), count - |data| - 1, dotu) == [] ==> data == all.0 && cur == all.1
  {
    FitReadStops(stat, cur, path, |data|, count, dotu, tab, tabsize, tps, ser, h, next);
  }

  /**
   * The corrected loop of dirtab_read_dir: the cursor is saved before each
   * resolver call and put back when the child's record does not fit.
   */
  method ReadFitting(flav: Flavour, f: Fid, count: nat, dotu: int, fstable: seq<Dirtab>, nelem: nat,
                     tps: seq<TransferPoint>, ser: Serializer) returns (data: seq<bv8>)
    requires 0 < count && nelem <= |fstable| && GraftsValid(tps) && SerializerBounded(ser)
    modifies f`offset
    ensures (data, f.offset) == FitRead(ChildStats(flav, fstable, nelem, tps), old(f.offset), f.qid.path, 0, count,
                                        dotu, fstable, nelem, tps, ser)
  {
    ghost var stat := ChildStats(flav, fstable, nelem, tps);
    var path := f.qid.path;
    var cur := f.offset;
    ghost var all := FitRead(stat, cur, path, 0, count, dotu, fstable, nelem, tps, ser);
    data := [];
    while |data| < count
      invariant path == f.qid.path && f.offset == cur
      invariant FitInvariant(stat, cur, path, data, count, dotu, fstable, nelem, tps, ser, all)
      decreases nelem + |tps| - cur
    {
      var hit, next := FindNextDirChild(cur, path, fstable, nelem, tps);
      FitInvariantDone(stat, cur, path, data, count, dotu, fstable, nelem, tps, ser, all, hit, next);
      if hit.NoChild? {
        f.offset := next;
        break;
      }
      var w := ChildStat(flav, hit, fstable, nelem, tps);
      ChildStatsAt(flav, fstable, nelem, tps, hit);
      var b := ser(w, count - |data| - 1, dotu);
      if b == [] {
        break;
      }
      FitInvariantStep(stat, cur, path, data, count, dotu, fstable, nelem, tps, ser, all, hit, next, b);
      cur := next;
      f.offset := cur;
      data := data + b;
    }
  }

  /**
   * dirtab_read: a directory fid lists the children of its scope; a file
   * hands over to its row's read operation, or fails with EPERM without one.
   */
  method Read(flav: Flavour, f: Fid, offset: nat, count: nat, dotu: int, reg: Registry, ser: Serializer)
    returns (r: Reply<seq<bv8>, ReadOp>)
    requires f.Valid() && GraftsValid(reg.list) && SerializerBounded(ser)
    modifies f`offset
    ensures IsDirQid(f.qid) != 0 ==>
      var start := if offset == 0 then 0 else old(f.offset);
      var d := DirRead(flav, start, f.qid.path, count, dotu, f.parenttab, f.parenttabsize, reg.list, ser);
      r == Done(d.0) && f.offset == d.1
    ensures IsDirQid(f.qid) == 0 ==> f.offset == old(f.offset)
    ensures IsDirQid(f.qid) == 0 && f.dt.fops.read.Some? ==> r == Delegated(f.dt.fops.read.value)
    ensures IsDirQid(f.qid) == 0 && f.dt.fops.read.None? ==> r == Failed(EPERM)
  {
    if IsDirQid(f.qid) != 0 {
      var data := ReadDir(flav, f, offset, count, dotu, f.parenttab, f.parenttabsize, reg, ser);
      return Done(data);
    }
    if f.dt.fops.read.Some? {
      return Delegated(f.dt.fops.read.value);
    }
    return Failed(EPERM);
  }

  const NoChange: bv32 := 0xFFFF_FFFF

  /**
   * dirtab_wstat: refuse to turn a file into a directory (a mode other than
   * "don't touch" that sets Dmdir on a non-directory); accept anything else
   * without changing the fid.
   */
  function WriteStat(f: Fid, mode: bv32): (r: Option<Error>)
    reads f
    ensures r.Some? <==> mode != NoChange && mode & Dmdir != 0 && f.qid.qtype & Qtdir == 0
    ensures r.Some? ==> r.value == DirChange
  {
    if mode != NoChange && mode & Dmdir != 0 && IsDirQid(f.qid) == 0 then Some(DirChange) else None
  }

  /**
   * dirtab_write: a directory cannot be written (EPERM); a file hands over
   * to its row's write operation, or fails with EPERM without one.
   */
  function Write(f: Fid): (r: Reply<(), WriteOp>)
    reads f
    ensures r.Failed? <==> (f.qid.qtype & Qtdir != 0 || f.dt.fops.write.None?)
    ensures r.Failed? ==> r.error == EPERM
    ensures r.Delegated? ==> r.op == f.dt.fops.write.value
  {
    if IsDirQid(f.qid) != 0 then Failed(EPERM)
    else if f.dt.fops.write.Some? then Delegated(f.dt.fops.write.value)
    else Failed(EPERM)
  }
}
