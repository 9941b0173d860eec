/**
 * The connection pool of the /net server (devdirtab/myconn.c): a fixed
 * array of slots, each with a status that moves through
 * FREE -> DISCONNECTED -> CONNECTED / ASSIGNED / LISTEN.  Every socket call
 * is replaced by a parameter carrying its outcome.
 */
module MyConn {
  import opened Npfs
  import opened MyUtils

  const MAXCONN := 100
  const MAX_BACKLOG := 50

  /** The status enum (FREE = 0, CONNECTED = 1, ...). */
  datatype Status = Free | Connected | Disconnected | Assigned | Listen | Blocked

  /**
   * One slot (struct Conn).  The ip address, port, mutex and peer address
   * are not read by any modelled path and are left out.
   */
  datatype Conn = Conn(dirname: string, fd: int, index: nat, status: Status)

  /** The zero-initialised slot of a static array: status 0 is FREE. */
  const ZeroConn := Conn("", 0, 0, Free)

  /** The first FREE slot at or after `from`, scanning up to MAXCONN. */
  function FirstFree(s: seq<Conn>, from: nat): (r: Option<nat>)
    requires |s| == MAXCONN
    ensures r.Some? ==> from <= r.value < MAXCONN && s[r.value].status == Free
    ensures r.Some? ==> forall j :: from <= j < r.value ==> s[j].status != Free
    ensures r.None? <==> forall j :: from <= j < MAXCONN ==> s[j].status != Free
    decreases MAXCONN - from
  {
    if from >= MAXCONN then None
    else if s[from].status == Free then Some(from)
    else FirstFree(s, from + 1)
  }

  /**
   * getConnPtr: the slot for any index below MAXCONN, whatever its status.
   * For a larger index the source reads past the array; the model says NULL.
   */
  function GetConnPtr(i: nat): (r: Option<nat>)
    ensures r.Some? <==> i < MAXCONN
    ensures r.Some? ==> r.value == i
  {
    if i < MAXCONN then Some(i) else None
  }

  class ConnPool {
    /** connArr */
    const slots: array<Conn>

    /**
     * A slot's index field is either still zero or its own position: the
     * only write to it stores the position.  So a slot handed out once keeps
     * its index for ever, and the model may identify a connection with it.
     */
    ghost predicate Valid()
      reads this, slots
    {
      slots.Length == MAXCONN &&
      forall i :: 0 <= i < MAXCONN ==> slots[i].index == 0 || slots[i].index == i
    }

    constructor ()
      ensures Valid() && fresh(slots)
      ensures forall i :: 0 <= i < MAXCONN ==> slots[i] == ZeroConn
    {
      slots := new Conn[MAXCONN](_ => ZeroConn);
    }

    /** init_conn: mark slots 1..MAXCONN-1 FREE; slot 0 is never used. */
    method Init()
      requires Valid()
      modifies slots
      ensures Valid()
      ensures slots[0] == old(slots[0])
      ensures forall i :: 1 <= i < MAXCONN ==> slots[i] == old(slots[i]).(status := Free)
    {
      for i := 1 to MAXCONN
        invariant slots[0] == old(slots[0])
        invariant forall j :: 1 <= j < i ==> slots[j] == old(slots[j]).(status := Free)
        invariant forall j :: i <= j < MAXCONN ==> slots[j] == old(slots[j])
      {
        slots[i] := slots[i].(status := Free);
      }
    }

    /**
     * findfreeConn: claim the lowest FREE slot with index >= 1, giving it
     * its index, status DISCONNECTED and its decimal index as directory
     * name.  None (NULL) when every slot is taken.
     */
    method FindFreeConn() returns (r: Option<nat>)
      requires Valid()
      modifies slots
      ensures Valid()
      ensures r == FirstFree(old(slots[..]), 1)
      ensures r.None? ==> slots[..] == old(slots[..])
      ensures r.Some? ==> 1 <= r.value < MAXCONN && slots[..] == old(slots[..])[r.value :=
        old(slots[r.value]).(index := r.value, status := Disconnected, dirname := DecimalString(r.value))]
    {
      for i := 1 to MAXCONN
        invariant forall j :: 1 <= j < i ==> slots[j].status != Free
        invariant slots[..] == old(slots[..])
      {
        if slots[i].status == Free {
          assert FirstFree(slots[..], 1) == FirstFree(slots[..], i);
          slots[i] := slots[i].(index := i, status := Disconnected, dirname := DecimalString(i));
          return Some(i);
        }
      }
      return None;
    }

    /**
     * createConnection: connect a DISCONNECTED slot.  `socketFd` is what
     * socket() returned and `connectOk` whether connect() succeeded.  The
     * port must read as a number in full.  Only success changes the slot.
     */
    method CreateConnection(k: nat, ipaddress: string, port: string, socketFd: int, connectOk: bool)
      returns (r: Result<int>)
      requires Valid() && k < MAXCONN
      modifies slots
      ensures Valid()
      ensures r.Ok? <==> ((old(slots[k]).status == Disconnected && socketFd >= 0
                          && AtoiValue(port, |port|) >= 0 && connectOk))
      ensures r.Ok? ==> (r.value == 1
        && slots[..] == old(slots[..])[k := old(slots[k]).(fd := socketFd, status := Connected)])
      ensures r.Err? ==> slots[..] == old(slots[..])
      ensures r.Err? ==> r.error == (if old(slots[k]).status != Disconnected || (socketFd >= 0 && AtoiValue(port, |port|) < 0)
                                     then EINVAL else SysError)
    {
      if slots[k].status != Disconnected {
        return Err(EINVAL);
      }
      if socketFd < 0 {
        return Err(SysError);
      }
      var portnum := MyAtoi(port, |port|);
      if portnum < 0 {
        return Err(EINVAL);
      }
      if !connectOk {
        return Err(SysError);
      }
      slots[k] := slots[k].(fd := socketFd, status := Connected);
      return Ok(1);
    }

    /**
     * getDataFromConnection: `readResult` is what read() returned.  End of
     * stream or an error marks the slot DISCONNECTED and yields -1.
     */
    method GetDataFromConnection(k: nat, count: int, readResult: int) returns (r: int)
      requires Valid() && k < MAXCONN
      requires readResult <= count
      modifies slots
      ensures Valid()
      ensures readResult <= 0 ==> (r == -1
        && slots[..] == old(slots[..])[k := old(slots[k]).(status := Disconnected)])
      ensures readResult > 0 ==> r == readResult && slots[..] == old(slots[..])
    {
      if readResult <= 0 {
        slots[k] := slots[k].(status := Disconnected);
        return -1;
      }
      return readResult;
    }

    /** sendDataToConnection: the byte count write() reported, or -1 on its failure. */
    method SendDataToConnection(k: nat, count: int, writeResult: int) returns (r: int)
      requires Valid() && k < MAXCONN
      requires writeResult <= count
      ensures writeResult < 0 ==> r == -1
      ensures writeResult >= 0 ==> r == writeResult
    {
      if writeResult < 0 {
        return -1;
      }
      return writeResult;
    }

    /** closeConnection: CONNECTED becomes DISCONNECTED and yields 1; otherwise -1 and no change. */
    method CloseConnection(k: nat) returns (r: int)
      requires Valid() && k < MAXCONN
      modifies slots
      ensures Valid()
      ensures old(slots[k]).status == Connected ==> (r == 1
        && slots[..] == old(slots[..])[k := old(slots[k]).(status := Disconnected)])
      ensures old(slots[k]).status != Connected ==> r == -1 && slots[..] == old(slots[..])
    {
      if slots[k].status != Connected {
        return -1;
      }
      slots[k] := slots[k].(status := Disconnected);
      return 1;
    }

    /**
     * assignPort: store the new socket in the slot; when that failed, yield
     * an error, otherwise mark the slot ASSIGNED and yield 1.  The outcome
     * of bind() (`bindOk`) has no effect on either.
     */
    method AssignPort(k: nat, port: string, socketFd: int, bindOk: bool) returns (r: Result<int>)
      requires Valid() && k < MAXCONN
      modifies slots
      ensures Valid()
      ensures socketFd < 0 ==> (r == Err(SysError)
        && slots[..] == old(slots[..])[k := old(slots[k]).(fd := socketFd)])
      ensures socketFd >= 0 ==> (r == Ok(1)
        && slots[..] == old(slots[..])[k := old(slots[k]).(fd := socketFd, status := Assigned)])
    {
      var portnum := MyAtoi(port, |port|);
      slots[k] := slots[k].(fd := socketFd);
      if socketFd < 0 {
        return Err(SysError);
      }
      slots[k] := slots[k].(status := Assigned);
      return Ok(1);
    }

    /**
     * listenOnConnection: mark the slot LISTEN; when listen() fails, yield an
     * error and leave it so.  Otherwise claim a free slot for the accepted
     * connection (`acceptFd`), mark that CONNECTED, put the listener back
     * to ASSIGNED and yield the new slot's index.  The source dereferences
     * the result of findfreeConn without a check, so a free slot must exist.
     */
    method ListenOnConnection(k: nat, listenOk: bool, acceptFd: int) returns (r: Result<nat>)
      requires Valid() && k < MAXCONN
      requires listenOk ==> exists j :: 1 <= j < MAXCONN && j != k && slots[j].status == Free
      modifies slots
      ensures Valid()
      ensures !listenOk ==> (r == Err(SysError)
        && slots[..] == old(slots[..])[k := old(slots[k]).(status := Listen)])
      ensures listenOk ==> r.Ok?
      ensures r.Ok? ==>
        var n := r.value;
        var mid := old(slots[..])[k := old(slots[k]).(status := Listen)];
        && Some(n) == FirstFree(mid, 1)
        && n != k
        && slots[..] == mid[n := mid[n].(index := n, status := Connected, dirname := DecimalString(n), fd := acceptFd)]
                            [k := mid[k].(status := Assigned)]
    {
      slots[k] := slots[k].(status := Listen);
      if !listenOk {
        return Err(SysError);
      }
      ghost var mid := slots[..];
      ghost var j :| 1 <= j < MAXCONN && j != k && old(slots[j]).status == Free;
      assert mid[j].status == Free;
      var newconn := FindFreeConn();
      assert newconn.Some?;
      var n := newconn.value;
      slots[n] := slots[n].(fd := acceptFd, status := Connected);
      slots[k] := slots[k].(status := Assigned);
      return Ok(slots[n].index);
    }

    /** releaseConnection: DISCONNECTED becomes FREE and yields the index field; otherwise -1 and no change. */
    method ReleaseConnection(k: nat) returns (r: int)
      requires Valid() && k < MAXCONN
      modifies slots
      ensures Valid()
      ensures old(slots[k]).status == Disconnected ==> (r == old(slots[k]).index
        && slots[..] == old(slots[..])[k := old(slots[k]).(status := Free)])
      ensures old(slots[k]).status != Disconnected ==> r == -1 && slots[..] == old(slots[..])
    {
      if slots[k].status != Disconnected {
        return -1;
      }
      slots[k] := slots[k].(status := Free);
      return slots[k].index;
    }
  }
}
