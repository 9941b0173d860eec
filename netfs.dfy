/**
 * How ctl_write of devdirtab/netfs.c reads its request: a command word
 * and its arguments, as mygetstringopt splits them.
 */
module NetCtl {
  import opened MyUtils

  /** The command a ctl write carries, with the arguments as mygetstringopt splits them. */
  datatype CtlRequest =
    | ConnectReq(ip: string, ipCount: nat, port: string, leftAfterIp: nat)
    | DisconnectReq
    | ReleaseReq
    | PortReq(port: string)
    | UnknownReq

  /**
   * How ctl_write reads its `count` bytes: a command word, then for
   * "connect" an address (whose count includes the separators before it)
   * and a port, for "port" a port.
   */
  function ParseCtl(data: string, count: nat): (req: CtlRequest)
    requires count <= |data|
  {
    ParseAfterToken(data, count, StringOpt(data, count))
  }

  /** The parse after the command token `t` (the word and the count mygetstringopt returned). */
  function ParseAfterToken(data: string, count: nat, t: (string, nat)): CtlRequest
    requires t.1 <= count <= |data|
  {
    ParseArgs(t.0, data[t.1..], count - t.1)
  }

  /** The arguments ctl_write reads after the command word `cmd`, from the `left` characters of `rest`. */
  function ParseArgs(cmd: string, rest: string, left: nat): CtlRequest
    requires left <= |rest|
  {
    match CommandOf(cmd)
    case Connect => ConnectArgs(rest, left)
    case Disconnect => DisconnectReq
    case Release => ReleaseReq
    case Port => PortReq(StringOpt(rest, left).0)
    case Unknown => UnknownReq
  }

  /** The arguments of "connect": the address token (with its count), then the port token after it. */
  function ConnectArgs(rest: string, left: nat): (req: CtlRequest)
    requires left <= |rest|
    ensures req.ConnectReq?
  {
    var ip := StringOpt(rest, left);
    var port := StringOpt(rest[ip.1..], left - ip.1);
    ConnectReq(ip.0, ip.1, port.0, left - ip.1)
  }

  /** ParseArgs by command word. */
  lemma ParseArgsCases(cmd: string, rest: string, left: nat)
    requires left <= |rest|
    ensures CommandOf(cmd) == Connect ==> ParseArgs(cmd, rest, left) == ConnectArgs(rest, left)
    ensures CommandOf(cmd) == Disconnect ==> ParseArgs(cmd, rest, left) == DisconnectReq
    ensures CommandOf(cmd) == Release ==> ParseArgs(cmd, rest, left) == ReleaseReq
    ensures CommandOf(cmd) == Port ==> ParseArgs(cmd, rest, left).PortReq?
    ensures CommandOf(cmd) == Unknown ==> ParseArgs(cmd, rest, left) == UnknownReq
  {
  }

  /** Parsing the whole write is parsing the arguments after the first token mygetstringopt returns. */
  lemma ParseAfterCommand(data: string, count: nat, cmd: string, thistime: nat)
    requires count <= |data| && (cmd, thistime) == StringOpt(data, count)
    ensures ParseCtl(data, count) == ParseAfterToken(data, count, (cmd, thistime))
  {
  }

  /** The command words ctl_write compares against, in its order. */
  datatype Command = Connect | Disconnect | Release | Port | Unknown

  function CommandOf(word: string): Command
  {
    if word == "connect" then Connect
    else if word == "disconnect" then Disconnect
    else if word == "release" then Release
    else if word == "port" then Port
    else Unknown
  }
}

/**
 * The /net server's file operations (devdirtab/netfs.c): opening the clone
 * file grafts a fresh connection directory under the root, and the ctl,
 * data and listen files of that directory drive the connection pool.
 *
 * A fid names its connection by the pool index in bits 8-15 of its qid
 * path (NetQid.RetrieveFileSpecs).  Socket outcomes are parameters, as in
 * the pool.
 */
module NetFs {
  import opened Npfs
  import opened Casafs
  import opened MyUtils
  import opened TransferPoints
  import opened MyConn
  import opened NetQid
  import opened NetCtl
  import Dirtab

  /** The connection a fid's qid path selects, as retrieveFileSpecs reports it. */
  function FidConn(f: Fid): Option<nat>
    reads f
  {
    RetrieveFileSpecs(f.qid.path).conn
  }

  /** The graft clone_open and listen_read create for the slot with index i. */
  function ConnGraft(i: nat): (tp: TransferPoint)
    requires i < 256
    ensures tp.startQidPath == Qroot as bv64 && tp.destQidPath == EncodePath(Qtopdir, i)
    ensures tp.desttable == CloneTab && tp.desttablesize == |CloneTab| && tp.handle == ConnHandle(i)
    ensures tp.destptr == DecimalString(i)
  {
    TransferPoint(Qroot as bv64, DecimalString(i), CloneTab, |CloneTab|, EncodePath(Qtopdir, i), ConnHandle(i))
  }

  /** The slot after findfreeConn claims it. */
  function Claimed(c: Conn, i: nat): Conn
  {
    c.(index := i, status := Disconnected, dirname := DecimalString(i))
  }

  /**
   * clone_open: claim the lowest free slot, graft its directory under the
   * root, and leave the fid on that directory's ctl file.  With the pool
   * exhausted, fail with ENOSPC and change nothing.
   */
  method CloneOpen(f: Fid, pool: ConnPool, reg: Registry) returns (r: Result<Qid>)
    requires pool.Valid() && !reg.held
    modifies f, pool.slots, reg
    ensures pool.Valid() && !reg.held
    ensures FirstFree(old(pool.slots[..]), 1).None? ==> (r == Err(ENOSPC) && unchanged(f)
      && pool.slots[..] == old(pool.slots[..]) && reg.list == old(reg.list))
    ensures FirstFree(old(pool.slots[..]), 1).Some? ==> (
      var i := FirstFree(old(pool.slots[..]), 1).value;
      && 1 <= i < MAXCONN
      && pool.slots[..] == old(pool.slots[..])[i := Claimed(old(pool.slots[i]), i)]
      && reg.list == [ConnGraft(i)] + old(reg.list)
      && f.qid == Dt2Qid(CloneTab[1], Some(i)) && f.filename == "ctl" && f.dt == CloneTab[1]
      && f.parenttab == CloneTab && f.parenttabsize == |CloneTab|
      && f.omode == old(f.omode) && f.offset == old(f.offset)
      && r == Ok(f.qid))
    ensures r.Ok? ==> RowId(f.qid.path) == Qctl && IsInDynamic(f.qid.path)
    ensures Dirtab.GraftsValid(old(reg.list)) ==> Dirtab.GraftsValid(reg.list)
  {
    var newconn := pool.FindFreeConn();
    if newconn.None? {
      return Err(ENOSPC);
    }
    var i := newconn.value;
    if Dirtab.GraftsValid(reg.list) {
      ConnGraftKeepsValid(i, reg.list);
    }
    var qid := ConnPtr2Qid(pool.slots[i].index, CloneTab[0]);
    var t := reg.CreateConfigured(Qroot as bv64, qid.path, CloneTab, |CloneTab|, ConnHandle(i), pool.slots[i].dirname);
    Dt2Fid(CloneTab[1], f, CloneTab[1].name, Some(i));
    f.parenttab := CloneTab;
    f.parenttabsize := |CloneTab|;
    return Ok(f.qid);
  }

  /**
   * ctl_read: the decimal index of the fid's slot at offset 0, nothing at
   * a later offset; ENOENT for a fid with no connection.
   */
  method CtlRead(f: Fid, offset: nat, pool: ConnPool) returns (r: Result<string>)
    requires pool.Valid()
    ensures FidConn(f).None? ==> r == Err(ENOENT)
    ensures FidConn(f).Some? && offset > 0 ==> r == Ok("")
    ensures FidConn(f).Some? && offset == 0 ==> r == Ok(DecimalString(pool.slots[FidConn(f).value].index))
  {
    var specs := RetrieveFileSpecs(f.qid.path);
    if specs.conn.None? {
      return Err(ENOENT);
    }
    if offset > 0 {
      return Ok("");
    }
    return Ok(DecimalString(pool.slots[specs.conn.value].index));
  }

  /**
   * The answer of ctl_read on a slot clone_open claimed reads back, with
   * myatoi over its whole length, as the slot's position.
   */
  lemma CtlReadNamesTheSlot(i: nat, c: Conn)
    requires i < MAXCONN
    ensures AtoiValue(DecimalString(Claimed(c, i).index), |DecimalString(Claimed(c, i).index)|) == i
  {
    AtoiOfDecimal(i);
  }

  /**
   * data_read: bytes from a CONNECTED slot.  `readResult` is what read()
   * returned and `incoming` the bytes it delivered.  End of stream or a
   * failed read disconnects the slot; an end of stream leaves errno as it
   * was.  The source dereferences the fid's connection unchecked.
   */
  method DataRead(f: Fid, count: nat, pool: ConnPool, readResult: int, incoming: seq<bv8>)
    returns (r: Result<seq<bv8>>)
    requires pool.Valid() && FidConn(f).Some?
    requires readResult <= count && readResult <= |incoming|
    modifies pool.slots
    ensures pool.Valid()
    ensures var k := old(FidConn(f)).value;
      old(pool.slots[k]).status != Connected ==> r == Err(ENOTCONN) && pool.slots[..] == old(pool.slots[..])
    ensures var k := old(FidConn(f)).value;
      old(pool.slots[k]).status == Connected && readResult <= 0 ==> (
        && r == Err(if readResult < 0 then SysError else StaleErrno)
        && pool.slots[..] == old(pool.slots[..])[k := old(pool.slots[k]).(status := Disconnected)])
    ensures var k := old(FidConn(f)).value;
      old(pool.slots[k]).status == Connected && readResult > 0 ==>
        r == Ok(incoming[..readResult]) && pool.slots[..] == old(pool.slots[..])
  {
    var k := RetrieveFileSpecs(f.qid.path).conn.value;
    if pool.slots[k].status != Connected {
      return Err(ENOTCONN);
    }
    var n := pool.GetDataFromConnection(k, count, readResult);
    if n < 0 {
      return Err(if readResult < 0 then SysError else StaleErrno);
    }
    return Ok(incoming[..n]);
  }

  /**
   * listen_read: at offset 0 on an ASSIGNED slot, listen, accept into a
   * fresh slot, graft that slot's directory under the root and answer its
   * decimal index.  A later offset reads nothing.  The source dereferences
   * the connection, and the fresh slot, unchecked.
   */
  method ListenRead(f: Fid, offset: nat, pool: ConnPool, reg: Registry, listenOk: bool, acceptFd: int)
    returns (r: Result<string>)
    requires pool.Valid() && !reg.held
    requires offset == 0 ==> FidConn(f).Some?
    requires offset == 0 && listenOk && pool.slots[FidConn(f).value].status == Assigned ==>
      exists j :: 1 <= j < MAXCONN && j != FidConn(f).value && pool.slots[j].status == Free
    modifies pool.slots, reg
    ensures pool.Valid() && !reg.held
    ensures offset > 0 ==> r == Ok("") && pool.slots[..] == old(pool.slots[..]) && reg.list == old(reg.list)
    ensures offset == 0 ==> ListensOn(old(FidConn(f)).value, old(pool.slots[..]), old(reg.list),
                                      listenOk, acceptFd, r, pool.slots[..], reg.list)
    ensures Dirtab.GraftsValid(old(reg.list)) ==> Dirtab.GraftsValid(reg.list)
  {
    if offset > 0 {
      return Ok("");
    }
    var k := RetrieveFileSpecs(f.qid.path).conn.value;
    r := ListenOn(k, pool, reg, listenOk, acceptFd);
  }

  /**
   * What listen_read does at offset 0 to slot k, from pool `s` and
   * registry `l` to `s'` and `l'` with answer `r`.
   */
  ghost predicate ListensOn(k: nat, s: seq<Conn>, l: seq<TransferPoint>, listenOk: bool, acceptFd: int,
                            r: Result<string>, s': seq<Conn>, l': seq<TransferPoint>)
    requires k < MAXCONN && |s| == MAXCONN
  {
    var mid := s[k := s[k].(status := Listen)];
    && (s[k].status != Assigned ==> r == Err(EBADF) && s' == s && l' == l)
    && (s[k].status == Assigned && !listenOk ==> r == Err(SysError) && l' == l && s' == mid)
    && (s[k].status == Assigned && listenOk ==> (
          && FirstFree(mid, 1).Some?
          && var n := FirstFree(mid, 1).value;
          && n != k
          && r == Ok(DecimalString(n))
          && l' == [ConnGraft(n)] + l
          && s' == mid[n := Claimed(mid[n], n).(status := Connected, fd := acceptFd)]
                      [k := mid[k].(status := Assigned)]))
  }

  /** listen_read at offset 0 on slot k. */
  method ListenOn(k: nat, pool: ConnPool, reg: Registry, listenOk: bool, acceptFd: int)
    returns (r: Result<string>)
    requires pool.Valid() && !reg.held && k < MAXCONN
    requires listenOk && pool.slots[k].status == Assigned ==>
      exists j :: 1 <= j < MAXCONN && j != k && pool.slots[j].status == Free
    modifies pool.slots, reg
    ensures pool.Valid() && !reg.held
    ensures ListensOn(k, old(pool.slots[..]), old(reg.list), listenOk, acceptFd, r, pool.slots[..], reg.list)
    ensures Dirtab.GraftsValid(old(reg.list)) ==> Dirtab.GraftsValid(reg.list)
  {
    if pool.slots[k].status != Assigned {
      return Err(EBADF);
    }
    var l := pool.ListenOnConnection(k, listenOk, acceptFd);
    if l.Err? {
      return Err(SysError);
    }
    var n := l.value;
    if Dirtab.GraftsValid(reg.list) {
      ConnGraftKeepsValid(n, reg.list);
    }
    var newconn := GetConnPtr(n);
    var qid := ConnPtr2Qid(pool.slots[newconn.value].index, CloneTab[0]);
    var t := reg.CreateConfigured(Qroot as bv64, qid.path, CloneTab, |CloneTab|, ConnHandle(n),
                                  pool.slots[newconn.value].dirname);
    return Ok(DecimalString(pool.slots[newconn.value].index));
  }

  lemma UpdateSame<T>(s: seq<T>, k: nat)
    requires k < |s|
    ensures s[k := s[k]] == s
  {
  }

  /** What a ctl command yields for the fid's slot: the error it reports, if any, and the slot afterwards. */
  datatype SlotEffect = SlotEffect(err: Option<Error>, slot: Conn)

  /**
   * The transitions a ctl command may make: connect DISCONNECTED ->
   * CONNECTED, disconnect CONNECTED -> DISCONNECTED, release DISCONNECTED
   * -> FREE, port DISCONNECTED -> ASSIGNED.
   */
  predicate CtlTransition(req: CtlRequest, from: Status, to: Status)
  {
    match req
    case ConnectReq(_, _, _, _) => from == Disconnected && to == Connected
    case DisconnectReq => from == Connected && to == Disconnected
    case ReleaseReq => from == Disconnected && to == Free
    case PortReq(_) => from == Disconnected && to == Assigned
    case UnknownReq => false
  }

  /** connect: the address must span at least 7 characters and a port must follow. */
  function ConnectEffect(ipCount: nat, port: string, left: nat, c: Conn, socketFd: int, connectOk: bool): SlotEffect
  {
    if ipCount < 7 || left == 0 || c.status != Disconnected then SlotEffect(Some(EINVAL), c)
    else if socketFd < 0 then SlotEffect(Some(SysError), c)
    else if AtoiValue(port, |port|) < 0 then SlotEffect(Some(EINVAL), c)
    else if !connectOk then SlotEffect(Some(SysError), c)
    else SlotEffect(None, c.(fd := socketFd, status := Connected))
  }

  function DisconnectEffect(c: Conn): SlotEffect
  {
    if c.status != Connected then SlotEffect(Some(StaleErrno), c)
    else SlotEffect(None, c.(status := Disconnected))
  }

  function ReleaseEffect(c: Conn): SlotEffect
  {
    if c.status != Disconnected then SlotEffect(Some(EADDRINUSE), c)
    else SlotEffect(None, c.(status := Free))
  }

  /** port: a failed socket() is still stored in the slot. */
  function PortEffect(c: Conn, socketFd: int): SlotEffect
  {
    if c.status != Disconnected then SlotEffect(Some(EADDRINUSE), c)
    else if socketFd < 0 then SlotEffect(Some(SysError), c.(fd := socketFd))
    else SlotEffect(None, c.(fd := socketFd, status := Assigned))
  }

  /**
   * The effect of ctl_write's command `req` on slot `c`.  `socketFd` and
   * `connectOk` are the outcomes of socket() and connect().
   */
  function CtlEffect(req: CtlRequest, c: Conn, socketFd: int, connectOk: bool): SlotEffect
  {
    match req
    case ConnectReq(_, ipCount, port, left) => ConnectEffect(ipCount, port, left, c, socketFd, connectOk)
    case DisconnectReq => DisconnectEffect(c)
    case ReleaseReq => ReleaseEffect(c)
    case PortReq(_) => PortEffect(c, socketFd)
    case UnknownReq => SlotEffect(Some(EINVAL), c)
  }

  /**
   * The slot state machine behind ctl_write: a command that succeeds makes
   * exactly its transition, and it succeeds exactly when its conditions
   * hold.  A failed one leaves the status alone and changes nothing else,
   * except that a port command keeps the failed socket in the slot.  Index
   * and directory name never change.
   */
  lemma CtlEffectTransitions(req: CtlRequest, c: Conn, socketFd: int, connectOk: bool)
    ensures var e := CtlEffect(req, c, socketFd, connectOk);
      && e.slot.index == c.index && e.slot.dirname == c.dirname
      && (e.err.None? ==> CtlTransition(req, c.status, e.slot.status))
      && (e.err.Some? ==> e.slot.status == c.status)
      && (e.err.Some? && !req.PortReq? ==> e.slot == c)
    ensures CtlEffect(req, c, socketFd, connectOk).err.None? <==> (match req
      case ConnectReq(_, ipCount, port, left) =>
        ipCount >= 7 && left > 0 && c.status == Disconnected && socketFd >= 0
        && AtoiValue(port, |port|) >= 0 && connectOk
      case DisconnectReq => c.status == Connected
      case ReleaseReq => c.status == Disconnected
      case PortReq(_) => c.status == Disconnected && socketFd >= 0
      case UnknownReq => false)
  {
  }

  /**
   * The registry after the release of the graft of the slot with this
   * index: TPReleaseTransferPoint on the root's path and the slot
   * directory's path.
   */
  function GraftRelease(l: seq<TransferPoint>, index: nat): seq<TransferPoint>
    requires index < 256
  {
    var j := FirstJoining(l, Qroot as bv64, EncodePath(Qtopdir, index));
    if j.None? then l else RemoveAt(l, j.value)
  }

  /** Whether ctl_write also releases the slot's graft: a release that freed the slot. */
  predicate ReleasesGraft(req: CtlRequest, c: Conn)
  {
    req.ReleaseReq? && c.status == Disconnected
  }

  /**
   * ctl_write: run the command on the fid's slot, reporting the whole
   * `count` on success.  `socketFd`, `connectOk` and `bindOk` are the
   * outcomes of socket(), connect() and bind().  A successful release also
   * releases the graft clone_open made for the slot; a missing graft is
   * only a warning.  The registry lock ends free: the release used is the
   * corrected one, which does not leave it held.  The source dereferences
   * the fid's connection unchecked.
   */
  method CtlWrite(f: Fid, data: string, count: nat, pool: ConnPool, reg: Registry,
                  socketFd: int, connectOk: bool, bindOk: bool) returns (r: Result<nat>)
    requires pool.Valid() && !reg.held && FidConn(f).Some? && count <= |data|
    modifies pool.slots, reg
    ensures pool.Valid() && !reg.held
    ensures Dirtab.GraftsValid(old(reg.list)) ==> Dirtab.GraftsValid(reg.list)
    ensures CtlWrites(old(FidConn(f)).value, data, count, socketFd, connectOk,
                      old(pool.slots[..]), old(reg.list), r, pool.slots[..], reg.list)
  {
    var k := RetrieveFileSpecs(f.qid.path).conn.value;
    r := RunCtl(k, data, count, pool, reg, socketFd, connectOk, bindOk);
  }

  /**
   * What ctl_write does to slot k, from pool `s` and registry `l` to `s'`
   * and `l'`, answering `r`: the slot takes the effect
   * of the parsed command, a failure reports its error and a success the
   * whole `count`, and only a successful release touches the registry.
   */
  ghost predicate CtlWrites(k: nat, data: string, count: nat, socketFd: int, connectOk: bool,
                            s: seq<Conn>, l: seq<TransferPoint>,
                            r: Result<nat>, s': seq<Conn>, l': seq<TransferPoint>)
    requires k < MAXCONN && |s| == MAXCONN && s[k].index < 256 && count <= |data|
  {
    var req := ParseCtl(data, count);
    var e := CtlEffect(req, s[k], socketFd, connectOk);
    && s' == s[k := e.slot]
    && r == (if e.err.Some? then Err(e.err.value) else Ok(count))
    && l' == if ReleasesGraft(req, s[k]) then GraftRelease(l, s[k].index) else l
  }

  /** CtlWrites from a request already known to be the parse of the write. */
  lemma CtlWritesOf(cmd: string, thistime: nat, req: CtlRequest,
                    k: nat, data: string, count: nat, socketFd: int, connectOk: bool,
                    s: seq<Conn>, l: seq<TransferPoint>,
                    r: Result<nat>, s': seq<Conn>, l': seq<TransferPoint>)
    requires k < MAXCONN && |s| == MAXCONN && s[k].index < 256 && count <= |data|
    requires (cmd, thistime) == StringOpt(data, count)
    requires thistime <= count && req == ParseAfterToken(data, count, (cmd, thistime))
    requires var e := CtlEffect(req, s[k], socketFd, connectOk);
      && s' == s[k := e.slot]
      && r == (if e.err.Some? then Err(e.err.value) else Ok(count))
      && l' == if ReleasesGraft(req, s[k]) then GraftRelease(l, s[k].index) else l
    ensures CtlWrites(k, data, count, socketFd, connectOk, s, l, r, s', l')
  {
    ParseAfterCommand(data, count, cmd, thistime);
  }

  /** ctl_write after retrieveFileSpecs: parse the command and run it on slot k. */
  method RunCtl(k: nat, data: string, count: nat, pool: ConnPool, reg: Registry,
                socketFd: int, connectOk: bool, bindOk: bool) returns (r: Result<nat>)
    requires pool.Valid() && !reg.held && k < MAXCONN && count <= |data|
    modifies pool.slots, reg
    ensures pool.Valid() && !reg.held
    ensures Dirtab.GraftsValid(old(reg.list)) ==> Dirtab.GraftsValid(reg.list)
    ensures CtlWrites(k, data, count, socketFd, connectOk,
                      old(pool.slots[..]), old(reg.list), r, pool.slots[..], reg.list)
  {
    ghost var c0 := pool.slots[k];
    ghost var s0 := pool.slots[..];
    var cmd, thistime := GetStringOpt(data, count);
    var rest, left := data[thistime..], count - thistime;
    ghost var req := ParseArgs(cmd, rest, left);
    assert req == ParseAfterToken(data, count, (cmd, thistime));
    assert s0[k].index < 256;
    ParseArgsCases(cmd, rest, left);
    ghost var e := CtlEffect(req, c0, socketFd, connectOk);
    var err: Option<Error>;
    match CommandOf(cmd) {
    case Connect =>
      err := CtlConnect(k, rest, left, pool, socketFd, connectOk);
      assert pool.slots[..] == s0[k := e.slot] && err == e.err;
    case Disconnect =>
      assert e == DisconnectEffect(c0);
      err := CtlDisconnect(k, pool);
      assert pool.slots[..] == s0[k := e.slot] && err == e.err;
    case Release =>
      assert e == ReleaseEffect(c0);
      err := CtlRelease(k, pool, reg);
      assert pool.slots[..] == s0[k := e.slot] && err == e.err;
    case Port =>
      assert e == PortEffect(c0, socketFd);
      err := CtlPort(k, rest, left, pool, socketFd, bindOk);
      assert pool.slots[..] == s0[k := e.slot] && err == e.err;
    case Unknown =>
      assert e == SlotEffect(Some(EINVAL), c0);
      err := Some(EINVAL);
      UpdateSame(pool.slots[..], k);
    }
    r := if err.Some? then Err(err.value) else Ok(count);
    CtlWritesOf(cmd, thistime, req, k, data, count, socketFd, connectOk, s0, old(reg.list), r, pool.slots[..], reg.list);
  }

  /** The "connect" branch of ctl_write: split address and port off `rest`, then connect. */
  method CtlConnect(k: nat, rest: string, left: nat, pool: ConnPool, socketFd: int, connectOk: bool)
    returns (err: Option<Error>)
    requires pool.Valid() && k < MAXCONN && left <= |rest|
    modifies pool.slots
    ensures pool.Valid()
    ensures var e := CtlEffect(ConnectArgs(rest, left), old(pool.slots[k]), socketFd, connectOk);
      pool.slots[..] == old(pool.slots[..])[k := e.slot] && err == e.err
  {
    UpdateSame(pool.slots[..], k);
    var ipaddress, iptime := GetStringOpt(rest, left);
    if iptime < 7 {
      return Some(EINVAL);
    }
    var port, porttime := GetStringOpt(rest[iptime..], left - iptime);
    if left - iptime == 0 {
      return Some(EINVAL);
    }
    var c := pool.CreateConnection(k, ipaddress, port, socketFd, connectOk);
    if c.Err? {
      return Some(c.error);
    }
    return None;
  }

  /** The "disconnect" branch of ctl_write. */
  method CtlDisconnect(k: nat, pool: ConnPool) returns (err: Option<Error>)
    requires pool.Valid() && k < MAXCONN
    modifies pool.slots
    ensures pool.Valid()
    ensures var e := DisconnectEffect(old(pool.slots[k]));
      pool.slots[..] == old(pool.slots[..])[k := e.slot] && err == e.err
  {
    UpdateSame(pool.slots[..], k);
    var c := pool.CloseConnection(k);
    if c < 0 {
      return Some(StaleErrno);
    }
    return None;
  }

  /**
   * The "release" branch of ctl_write: free a DISCONNECTED slot and
   * release the graft whose destination path carries the slot's index.
   */
  method CtlRelease(k: nat, pool: ConnPool, reg: Registry) returns (err: Option<Error>)
    requires pool.Valid() && k < MAXCONN && !reg.held
    modifies pool.slots, reg
    ensures pool.Valid()
    ensures var e := ReleaseEffect(old(pool.slots[k]));
      pool.slots[..] == old(pool.slots[..])[k := e.slot] && err == e.err
    ensures reg.list == if old(pool.slots[k]).status == Disconnected
                        then GraftRelease(old(reg.list), old(pool.slots[k]).index)
                        else old(reg.list)
    ensures !reg.held
    ensures Dirtab.GraftsValid(old(reg.list)) ==> Dirtab.GraftsValid(reg.list)
  {
    if pool.slots[k].status != Disconnected {
      UpdateSame(pool.slots[..], k);
      return Some(EADDRINUSE);
    }
    var qid := ConnPtr2Qid(pool.slots[k].index, CloneTab[0]);
    // releaseConnection cannot fail on a DISCONNECTED slot, so its error branch is dead
    var c := pool.ReleaseConnection(k);
    if Dirtab.GraftsValid(reg.list) {
      GraftReleaseKeepsValid(reg.list, old(pool.slots[k]).index);
    }
    var released := reg.Release(Qroot as bv64, qid.path);
    return None;
  }

  /** The "port" branch of ctl_write: take the port argument, then bind a fresh socket. */
  method CtlPort(k: nat, rest: string, left: nat, pool: ConnPool, socketFd: int, bindOk: bool)
    returns (err: Option<Error>)
    requires pool.Valid() && k < MAXCONN && left <= |rest|
    modifies pool.slots
    ensures pool.Valid()
    ensures var e := PortEffect(old(pool.slots[k]), socketFd);
      pool.slots[..] == old(pool.slots[..])[k := e.slot] && err == e.err
  {
    var port, porttime := GetStringOpt(rest, left);
    if pool.slots[k].status != Disconnected {
      UpdateSame(pool.slots[..], k);
      return Some(EADDRINUSE);
    }
    var a := pool.AssignPort(k, port, socketFd, bindOk);
    if a.Err? {
      return Some(a.error);
    }
    return None;
  }

  /**
   * data_write: bytes to a CONNECTED slot; `writeResult` is what write()
   * returned.  The source dereferences the fid's connection unchecked.
   */
  method DataWrite(f: Fid, count: nat, pool: ConnPool, writeResult: int) returns (r: Result<nat>)
    requires pool.Valid() && FidConn(f).Some? && writeResult <= count
    ensures pool.slots[FidConn(f).value].status != Connected ==> r == Err(ENOTCONN)
    ensures pool.slots[FidConn(f).value].status == Connected && writeResult < 0 ==> r == Err(SysError)
    ensures pool.slots[FidConn(f).value].status == Connected && writeResult >= 0 ==> r == Ok(writeResult)
  {
    var k := RetrieveFileSpecs(f.qid.path).conn.value;
    if pool.slots[k].status != Connected {
      return Err(ENOTCONN);
    }
    var n := pool.SendDataToConnection(k, count, writeResult);
    if n < 0 {
      return Err(SysError);
    }
    return Ok(n);
  }

  /** A connection's graft is one the resolver can follow, so adding it keeps the registry valid. */
  lemma ConnGraftKeepsValid(i: nat, l: seq<TransferPoint>)
    requires i < 256 && Dirtab.GraftsValid(l)
    ensures Dirtab.GraftsValid([ConnGraft(i)] + l)
  {
    var l' := [ConnGraft(i)] + l;
    assert forall j :: 1 <= j < |l'| ==> l'[j] == l[j - 1];
  }

  /** Releasing a graft only unlinks a record, so it keeps the registry valid. */
  lemma GraftReleaseKeepsValid(l: seq<TransferPoint>, index: nat)
    requires index < 256 && Dirtab.GraftsValid(l)
    ensures Dirtab.GraftsValid(GraftRelease(l, index))
  {
  }

  /**
   * A release right after clone_open finds the graft at the head of the
   * list, so it restores the registry as it was before the clone.
   */
  lemma ReleaseUndoesClone(i: nat, l: seq<TransferPoint>)
    requires i < 256
    ensures GraftRelease([ConnGraft(i)] + l, i) == l
  {
    assert FirstJoining([ConnGraft(i)] + l, Qroot as bv64, EncodePath(Qtopdir, i)) == Some(0);
    assert ([ConnGraft(i)] + l)[1..] == l;
    assert RemoveAt([ConnGraft(i)] + l, 0) == l;
  }
}

/** How the dirtab engine sees the tree the /net server grafts. */
module NetTree {
  import opened Npfs
  import opened MyUtils
  import opened TransferPoints
  import opened NetQid
  import opened NetFs
  import Dirtab

  /**
   * After clone_open the root lists its clone file first, then the new
   * connection directory under its decimal name, then older grafts.
   */
  lemma RootListsCloneThenNewest(i: nat, l: seq<TransferPoint>)
    requires i < 256
    ensures var hits := Dirtab.Listing(0, Qroot as bv64, StaticTab, |StaticTab|, [ConnGraft(i)] + l);
      && |hits| >= 2 && hits[0] == Dirtab.Row(1) && hits[1] == Dirtab.Graft(0)
      && Dirtab.HitName(hits[1], StaticTab, |StaticTab|, [ConnGraft(i)] + l) == DecimalString(i)
  {
    var tps := [ConnGraft(i)] + l;
    Dirtab.EnumerationFromZero(Qroot as bv64, StaticTab, |StaticTab|, tps);
    assert Dirtab.FilePath(Qroot as bv64) == 0;
    assert Dirtab.StaticMatches(2, 0, StaticTab, |StaticTab|) == [];
    assert Dirtab.StaticMatches(1, 0, StaticTab, |StaticTab|) == [Dirtab.Row(1)];
    assert Dirtab.StaticMatches(0, 0, StaticTab, |StaticTab|) == [Dirtab.Row(1)];
    assert Dirtab.GraftMatches(0, Qroot as bv64, tps)[0] == Dirtab.Graft(0);
  }
}
