/**
 * The graft registry (devdirtab/TransferPoint.c): a singly linked list of
 * transfer points, each splicing a destination table into the namespace
 * under a start qid.  The list is a sequence whose element 0 is the head;
 * the global mutex is the `held` flag.
 */
module TransferPoints {
  import opened Npfs
  import opened Casafs

  /**
   * The opaque `void *handle` of a transfer point.  The only server that
   * creates grafts stores a connection-pool slot; the model keeps that
   * slot's index.
   */
  datatype Handle = NoHandle | ConnHandle(index: nat)

  /** One record (struct TransferPoint, without its `next` link). */
  datatype TransferPoint = TransferPoint(
    startQidPath: bv64,
    destptr: string,
    desttable: seq<Dirtab>,
    desttablesize: nat,
    destQidPath: bv64,
    handle: Handle)

  /** Whether a record joins the given (start, destination) qid pair. */
  predicate Joins(tp: TransferPoint, parentpath: bv64, childpath: bv64)
  {
    tp.startQidPath == parentpath && tp.destQidPath == childpath
  }

  /** The position of the first record from the head that joins the pair. */
  function FirstJoining(l: seq<TransferPoint>, parentpath: bv64, childpath: bv64): (r: Option<nat>)
    ensures r.Some? ==> r.value < |l| && Joins(l[r.value], parentpath, childpath)
    ensures r.Some? ==> forall j :: 0 <= j < r.value ==> !Joins(l[j], parentpath, childpath)
    ensures r.None? <==> forall j :: 0 <= j < |l| ==> !Joins(l[j], parentpath, childpath)
    decreases |l|
  {
    if l == [] then None
    else if Joins(l[0], parentpath, childpath) then Some(0)
    else match FirstJoining(l[1..], parentpath, childpath)
      case None => None
      case Some(k) => Some(k + 1)
  }

  /** The list with the record at position k unlinked. */
  function RemoveAt(l: seq<TransferPoint>, k: nat): (r: seq<TransferPoint>)
    requires k < |l|
    ensures |r| == |l| - 1
    ensures forall j :: 0 <= j < k ==> r[j] == l[j]
    ensures forall j :: k <= j < |r| ==> r[j] == l[j + 1]
  {
    l[..k] + l[k + 1..]
  }

  /**
   * Releasing a pair that only one record joins leaves no record joining
   * it, so a second release of the same pair finds nothing.
   */
  lemma ReleaseOfUniquePairIsFinal(l: seq<TransferPoint>, parentpath: bv64, childpath: bv64)
    requires FirstJoining(l, parentpath, childpath).Some?
    requires forall j :: 0 <= j < |l| && Joins(l[j], parentpath, childpath) ==>
      j == FirstJoining(l, parentpath, childpath).value
    ensures FirstJoining(RemoveAt(l, FirstJoining(l, parentpath, childpath).value), parentpath, childpath).None?
  {
    var k := FirstJoining(l, parentpath, childpath).value;
    var r := RemoveAt(l, k);
    forall j | 0 <= j < |r|
      ensures !Joins(r[j], parentpath, childpath)
    {
      if j >= k {
        assert r[j] == l[j + 1];
      }
    }
  }

  class Registry {
    /** transferList, head first */
    var list: seq<TransferPoint>
    /** whether globallock is held */
    var held: bool

    /** The zero-initialised globals. */
    constructor ()
      ensures list == [] && !held
    {
      list := [];
      held := false;
    }

    /** init_TP: empty the list and initialise the lock (unheld). */
    method Init()
      modifies this
      ensures list == [] && !held
    {
      list := [];
      held := false;
    }

    /** TPgetInitalTransferPoint: the current head, None for an empty list. */
    function Head(): (r: Option<TransferPoint>)
      reads this
      ensures r.None? <==> list == []
      ensures r.Some? ==> r.value == list[0]
    {
      if list == [] then None else Some(list[0])
    }

    /**
     * TPCreateTransferPoint: prepend a record whose payload fields are
     * whatever malloc left (`garbage`), without touching the lock.
     */
    method CreateUnlinked(garbage: TransferPoint) returns (r: TransferPoint)
      modifies this
      ensures list == [garbage] + old(list)
      ensures held == old(held)
      ensures r == list[0]
    {
      list := [garbage] + list;
      r := garbage;
    }

    /**
     * TPCreateNConfigTransferPoint: under the lock, prepend a record whose
     * six fields are the arguments.  A caller holding the lock would block
     * for ever, hence the precondition.
     */
    method CreateConfigured(qstart: bv64, qend: bv64, table: seq<Dirtab>, tablesize: nat,
                            handle: Handle, destination: string) returns (r: TransferPoint)
      requires !held
      modifies this
      ensures r == TransferPoint(qstart, destination, table, tablesize, qend, handle)
      ensures list == [r] + old(list)
      ensures !held
    {
      held := true;
      r := TransferPoint(qstart, destination, table, tablesize, qend, handle);
      list := [r] + list;
      held := false;
    }

    /**
     * TPReleaseTransferPoint as written: unlink the first record joining
     * the pair and return 1, or return -1 when none does.  The lock is
     * released on every path except a match behind the head, where the
     * source returns with the lock still held.
     */
    method ReleaseAsWritten(parentpath: bv64, childpath: bv64) returns (r: int)
      requires !held
      modifies this
      ensures var k := FirstJoining(old(list), parentpath, childpath);
        && (k.None? ==> r == -1 && list == old(list) && !held)
        && (k.Some? ==> r == 1 && list == RemoveAt(old(list), k.value) && held == (k.value > 0))
    {
      held := true;
      if list == [] {
        held := false;
        return -1;
      }
      if Joins(list[0], parentpath, childpath) {
        list := list[1..];
        held := false;
        return 1;
      }
      var i := 0;
      while i + 1 < |list|
        invariant 0 <= i < |list|
        invariant list == old(list) && held
        invariant forall j :: 0 <= j <= i ==> !Joins(list[j], parentpath, childpath)
      {
        if Joins(list[i + 1], parentpath, childpath) {
          assert FirstJoining(list, parentpath, childpath) == Some(i + 1);
          list := list[..i + 1] + list[i + 2..];
          return 1;
        }
        i := i + 1;
      }
      held := false;
      return -1;
    }

    /**
     * TPReleaseTransferPoint as intended: the same unlinking and result,
     * with the lock released on every path, the match behind the head
     * included.
     */
    method Release(parentpath: bv64, childpath: bv64) returns (r: int)
      requires !held
      modifies this
      ensures var k := FirstJoining(old(list), parentpath, childpath);
        && (k.None? ==> r == -1 && list == old(list))
        && (k.Some? ==> r == 1 && list == RemoveAt(old(list), k.value))
      ensures !held
    {
      held := true;
      if list == [] {
        held := false;
        return -1;
      }
      if Joins(list[0], parentpath, childpath) {
        list := list[1..];
        held := false;
        return 1;
      }
      var i := 0;
      while i + 1 < |list|
        invariant 0 <= i < |list|
        invariant list == old(list) && held
        invariant forall j :: 0 <= j <= i ==> !Joins(list[j], parentpath, childpath)
      {
        if Joins(list[i + 1], parentpath, childpath) {
          assert FirstJoining(list, parentpath, childpath) == Some(i + 1);
          list := list[..i + 1] + list[i + 2..];
          held := false;
          return 1;
        }
        i := i + 1;
      }
      held := false;
      return -1;
    }
  }

  /**
   * Two grafts, then the as-written release of the older one, which sits
   * behind the head: the registry lock is left held, so the next create or
   * release blocks for ever.
   */
  method LockLeftHeld() returns (stuck: bool)
    ensures stuck
  {
    var reg := new Registry();
    var older := reg.CreateConfigured(0, 1, [], 0, NoHandle, "1");
    var newer := reg.CreateConfigured(0, 2, [], 0, NoHandle, "2");
    assert reg.list == [newer, older];
    assert FirstJoining(reg.list[1..], 0, 1) == Some(0);
    assert FirstJoining(reg.list, 0, 1) == Some(1);
    var r := reg.ReleaseAsWritten(0, 1);
    stuck := reg.held;
  }
}
