/**
 * A 9P connection's buffers (libnpfs/conn.c): incoming bytes are cut into
 * frames by their little-endian size field and handed to the server in
 * arrival order; replies wait in a FIFO queue behind the one being
 * written; received-call packets are recycled through a free list.
 *
 * np_deserialize is not part of this model: it is the predicate `decodes`,
 * and a call that decodes returns the frame's declared size.  Packets are
 * named by numbers, and malloc hands out the next unused number.
 */
module NpConn {
  import opened Npfs

  newtype Byte = b: int | 0 <= b < 256

  const U32Limit := 0x1_0000_0000

  /** The free list of received-call packets is capped at this many entries. */
  const MaxFree := 64

  /** The size field of a frame: buf[0..3] read as a little-endian u32. */
  function FrameSize(b: seq<Byte>): (n: nat)
    requires |b| >= 4
    ensures n < U32Limit
  {
    (b[0] as int) + 0x100 * (b[1] as int) + 0x1_0000 * (b[2] as int) + 0x100_0000 * (b[3] as int)
  }

  /** The four little-endian bytes of a u32, as a 9P encoder writes a size field. */
  function Le32(n: nat): (b: seq<Byte>)
    requires n < U32Limit
    ensures |b| == 4
  {
    [(n % 0x100) as Byte, (n / 0x100 % 0x100) as Byte, (n / 0x1_0000 % 0x100) as Byte, (n / 0x100_0000) as Byte]
  }

  /** Reading the size field back gives the size that was written. */
  lemma FrameSizeOfLe32(n: nat, rest: seq<Byte>)
    requires n < U32Limit
    ensures FrameSize(Le32(n) + rest) == n
  {
    var q1 := n / 0x100;
    var q2 := q1 / 0x100;
    var q3 := q2 / 0x100;
    assert n == n % 0x100 + 0x100 * q1;
    assert q1 == q1 % 0x100 + 0x100 * q2;
    assert q2 == q2 % 0x100 + 0x100 * q3;
    assert n / 0x1_0000 == q2 && n / 0x100_0000 == q3;
  }

  /** What the size check at the head of the frame loop decides. */
  datatype Check = TooLarge | Incomplete | Complete(n: int)

  /**
   * The size check as evidently intended: the size field is a u32, so a
   * frame longer than the buffer's capacity is an error, a frame not yet
   * fully buffered waits, and otherwise the first `n` bytes are a frame.
   */
  function FrameCheck(data: seq<Byte>, size: int): (c: Check)
    requires |data| > 4
    ensures c == TooLarge <==> FrameSize(data) > size
    ensures c == Incomplete <==> FrameSize(data) <= size && |data| < FrameSize(data)
    ensures c.Complete? ==> c.n == FrameSize(data) && 0 <= c.n <= size && c.n <= |data|
  {
    var n := FrameSize(data);
    if n > size then TooLarge else if |data| < n then Incomplete else Complete(n)
  }

  /**
   * The size field as written: `buf[3] << 24` is computed in int, so on a
   * two's-complement target a frame whose top byte is 128 or more reads as
   * a negative size.
   */
  function SignedFrameSize(b: seq<Byte>): (n: int)
    requires |b| >= 4
    ensures b[3] < 128 ==> n == FrameSize(b)
    ensures b[3] >= 128 ==> n < 0
  {
    if b[3] < 128 then FrameSize(b) else FrameSize(b) - U32Limit
  }

  /** The size check as written, with the signed size against the int capacity and position. */
  function FrameCheckAsWritten(data: seq<Byte>, size: int): (c: Check)
    requires |data| > 4
    ensures data[3] < 128 ==> c == FrameCheck(data, size)
  {
    var n := SignedFrameSize(data);
    if n > size then TooLarge else if |data| < n then Incomplete else Complete(n)
  }

  /**
   * Five buffered bytes whose size field is 0x80000000: the check as
   * written lets them through to the decoder with a negative length,
   * where the u32 reading rejects them as larger than the buffer.
   */
  lemma NegativeSizePassesCheck()
    ensures FrameCheckAsWritten([0, 0, 0, 0x80, 0], 8192) == Complete(-0x8000_0000)
    ensures FrameCheck([0, 0, 0, 0x80, 0], 8192) == TooLarge
  {
  }

  /** The bytes of a sequence of frames, in order. */
  function Concat(ms: seq<seq<Byte>>): seq<Byte>
  {
    if ms == [] then [] else ms[0] + Concat(ms[1..])
  }

  /** What the frame loop does with buffered bytes: the frames it dispatches, the bytes it keeps, and the error it raises. */
  datatype DrainResult = DrainResult(msgs: seq<seq<Byte>>, rest: seq<Byte>, err: Option<Error>)

  /**
   * np_conn_data_in on the buffered bytes `data` of a buffer with capacity
   * `size`: cut off frames while more than four bytes are buffered and the
   * next frame is complete and decodes.  No byte is lost or reordered, each
   * dispatched frame is one the decoder accepted and fits the buffer, and
   * the loop stops exactly on a short buffer, an incomplete frame, an
   * oversized one (ENOMEM) or one that does not decode (EPROTO); the
   * offending frame stays buffered.
   */
  function Drain(data: seq<Byte>, size: int, decodes: seq<Byte> -> bool): DrainResult
    decreases |data|
  {
    if |data| <= 4 then DrainResult([], data, None)
    else match FrameCheck(data, size) {
      case TooLarge => DrainResult([], data, Some(ENOMEM))
      case Incomplete => DrainResult([], data, None)
      case Complete(n) =>
        if n == 0 || !decodes(data[..n]) then DrainResult([], data, Some(EPROTO))
        else
          var d := Drain(data[n..], size, decodes);
          DrainResult([data[..n]] + d.msgs, d.rest, d.err)
    }
  }

  lemma SplitJoins(s: seq<Byte>, n: nat)
    requires n <= |s|
    ensures s[..n] + s[n..] == s
  {
  }

  /** Drain loses and reorders no byte: its frames, then what it keeps, are the input. */
  lemma {:induction false} DrainKeepsBytes(data: seq<Byte>, size: int, decodes: seq<Byte> -> bool)
    ensures var d := Drain(data, size, decodes); Concat(d.msgs) + d.rest == data
    decreases |data|
  {
    if |data| > 4 && FrameCheck(data, size).Complete? {
      var n := FrameCheck(data, size).n;
      if n > 0 && decodes(data[..n]) {
        DrainKeepsBytes(data[n..], size, decodes);
        var d := Drain(data[n..], size, decodes);
        var ms := [data[..n]] + d.msgs;
        assert Drain(data, size, decodes) == DrainResult(ms, d.rest, d.err);
        assert ms[1..] == d.msgs;
        assert Concat(ms) + d.rest == data[..n] + (Concat(d.msgs) + d.rest);
        SplitJoins(data, n);
      }
    }
  }

  /** Every frame is non-empty, fits a buffer of capacity `size` and is one the decoder accepts. */
  predicate Accepted(ms: seq<seq<Byte>>, size: int, decodes: seq<Byte> -> bool)
  {
    forall i :: 0 <= i < |ms| ==> 0 < |ms[i]| <= size && decodes(ms[i])
  }

  /** Each frame Drain dispatches is non-empty, fits the buffer and is one the decoder accepted. */
  lemma {:induction false} DrainFramesAccepted(data: seq<Byte>, size: int, decodes: seq<Byte> -> bool)
    ensures Accepted(Drain(data, size, decodes).msgs, size, decodes)
    decreases |data|
  {
    if |data| > 4 && FrameCheck(data, size).Complete? {
      var n := FrameCheck(data, size).n;
      if n > 0 && decodes(data[..n]) {
        DrainFramesAccepted(data[n..], size, decodes);
        var d := Drain(data[n..], size, decodes);
        var ms := [data[..n]] + d.msgs;
        assert Drain(data, size, decodes) == DrainResult(ms, d.rest, d.err);
        forall i | 0 <= i < |ms|
          ensures 0 < |ms[i]| <= size && decodes(ms[i])
        {
          if i > 0 {
            assert ms[i] == d.msgs[i - 1];
          }
        }
      }
    }
  }

  /** The loop stops exactly where it must, and the error it raises names why. */
  predicate Halted(rest: seq<Byte>, err: Option<Error>, size: int, decodes: seq<Byte> -> bool)
  {
    && (err.None? ==> |rest| <= 4 || FrameCheck(rest, size) == Incomplete)
    && (err == Some(ENOMEM) ==> |rest| > 4 && FrameCheck(rest, size) == TooLarge)
    && (err == Some(EPROTO) ==> (|rest| > 4 && FrameCheck(rest, size).Complete?
        && (FrameSize(rest) == 0 || !decodes(rest[..FrameSize(rest)]))))
    && (err.None? || err == Some(ENOMEM) || err == Some(EPROTO))
  }

  /** Where Drain stops and the error it raises. */
  lemma {:induction false} DrainStops(data: seq<Byte>, size: int, decodes: seq<Byte> -> bool)
    ensures var d := Drain(data, size, decodes); Halted(d.rest, d.err, size, decodes)
    decreases |data|
  {
    if |data| > 4 && FrameCheck(data, size).Complete? {
      var n := FrameCheck(data, size).n;
      if n > 0 && decodes(data[..n]) {
        DrainStops(data[n..], size, decodes);
      }
    }
  }

  /** Drain on bytes where the loop stops at once: nothing dispatched, everything kept. */
  lemma DrainHalts(data: seq<Byte>, size: int, decodes: seq<Byte> -> bool)
    ensures |data| <= 4 ==> Drain(data, size, decodes) == DrainResult([], data, None)
    ensures |data| > 4 && FrameCheck(data, size) == TooLarge ==>
      Drain(data, size, decodes) == DrainResult([], data, Some(ENOMEM))
    ensures |data| > 4 && FrameCheck(data, size) == Incomplete ==>
      Drain(data, size, decodes) == DrainResult([], data, None)
    ensures (|data| > 4 && FrameCheck(data, size).Complete?
             && (FrameCheck(data, size).n == 0 || !decodes(data[..FrameCheck(data, size).n]))) ==>
      Drain(data, size, decodes) == DrainResult([], data, Some(EPROTO))
  {
  }

  /** Where the loop stops, what it dispatched so far is all of Drain, and the bytes left are its rest. */
  lemma DrainsAsHalt(all: seq<Byte>, done: seq<seq<Byte>>, cur: seq<Byte>, size: int, decodes: seq<Byte> -> bool)
    requires DrainsAs(all, done, cur, size, decodes)
    ensures |cur| <= 4 ==> Drain(all, size, decodes) == DrainResult(done, cur, None)
    ensures |cur| > 4 && FrameCheck(cur, size) == TooLarge ==>
      Drain(all, size, decodes) == DrainResult(done, cur, Some(ENOMEM))
    ensures |cur| > 4 && FrameCheck(cur, size) == Incomplete ==>
      Drain(all, size, decodes) == DrainResult(done, cur, None)
    ensures (|cur| > 4 && FrameCheck(cur, size).Complete?
             && (FrameCheck(cur, size).n == 0 || !decodes(cur[..FrameCheck(cur, size).n]))) ==>
      Drain(all, size, decodes) == DrainResult(done, cur, Some(EPROTO))
  {
    DrainHalts(cur, size, decodes);
    assert done + [] == done;
  }

  /** One step of Drain: a complete frame that decodes is dispatched first, the rest drained after it. */
  lemma DrainStep(data: seq<Byte>, size: int, decodes: seq<Byte> -> bool, n: nat)
    requires |data| > 4 && FrameCheck(data, size) == Complete(n) && n > 0 && decodes(data[..n])
    ensures var d := Drain(data[n..], size, decodes);
      Drain(data, size, decodes) == DrainResult([data[..n]] + d.msgs, d.rest, d.err)
  {
  }

  /** The frames `done` already dispatched from `all`, with `cur` left to drain, add up to draining `all`. */
  ghost predicate DrainsAs(all: seq<Byte>, done: seq<seq<Byte>>, cur: seq<Byte>, size: int, decodes: seq<Byte> -> bool)
  {
    var d := Drain(cur, size, decodes);
    Drain(all, size, decodes) == DrainResult(done + d.msgs, d.rest, d.err)
  }

  /** Dispatching the next frame of `cur` keeps DrainsAs. */
  lemma DrainsAsStep(all: seq<Byte>, done: seq<seq<Byte>>, cur: seq<Byte>, size: int,
                     decodes: seq<Byte> -> bool, n: nat)
    requires DrainsAs(all, done, cur, size, decodes)
    requires |cur| > 4 && FrameCheck(cur, size) == Complete(n) && n > 0 && decodes(cur[..n])
    ensures DrainsAs(all, done + [cur[..n]], cur[n..], size, decodes)
  {
    DrainStep(cur, size, decodes, n);
    var d := Drain(cur[n..], size, decodes);
    assert done + ([cur[..n]] + d.msgs) == (done + [cur[..n]]) + d.msgs;
  }

  /**
   * The free list and count after np_conn_free_rcall as written: the
   * packet is kept while the count is below the cap, but the count is
   * never incremented.
   */
  function FreeAsWritten(list: seq<nat>, num: int, rc: nat): (r: (seq<nat>, int))
    ensures num < MaxFree ==> r == ([rc] + list, num)
    ensures num >= MaxFree ==> r == (list, num)
  {
    if num < MaxFree then ([rc] + list, num) else (list, num)
  }

  /** `k` packets freed one after another, as written, from an empty list. */
  function FreedAsWritten(k: nat): (seq<nat>, int)
  {
    if k == 0 then ([], 0) else var p := FreedAsWritten(k - 1); FreeAsWritten(p.0, p.1, k)
  }

  /** As written the count never moves, so every freed packet is kept and the cap never applies. */
  lemma {:induction false} FreeListUnbounded(k: nat)
    ensures |FreedAsWritten(k).0| == k && FreedAsWritten(k).1 == 0
  {
    if k > 0 {
      FreeListUnbounded(k - 1);
    }
  }

  /** The free list and count after np_conn_free_rcall as evidently intended: a kept packet is counted. */
  function FreeCounted(list: seq<nat>, num: int, rc: nat): (r: (seq<nat>, int))
    requires num == |list| <= MaxFree
    ensures r.1 == |r.0| <= MaxFree
    ensures num < MaxFree ==> r.0 == [rc] + list
    ensures num == MaxFree ==> r.0 == list
  {
    if num < MaxFree then ([rc] + list, num + 1) else (list, num)
  }

  /** struct Npbuf: its capacity, the position in it, and the packet it points into (NULL: None). */
  datatype Npbuf = Npbuf(size: int, pos: int, pkt: Option<nat>)

  /** np_buf_set: point the buffer at a new packet of the given size, at position 0. */
  function BufSet(b: Npbuf, pkt: Option<nat>, size: int): (r: Npbuf)
    ensures r.pos == 0 && r.size == size && r.pkt == pkt
  {
    b.(pos := 0, size := size, pkt := pkt)
  }

  /** A reply waiting to be written: its packet and the size of its message. */
  datatype Reply = Reply(pkt: nat, size: nat)

  /** The i-th packet a run of new_rcall calls takes: first the free list, then fresh ones. */
  function Taken(free: seq<nat>, next: nat, i: nat): nat
  {
    if i < |free| then free[i] else next + (i - |free|)
  }

  function Min(a: nat, b: nat): nat
  {
    if a < b then a else b
  }

  /**
   * The packet bookkeeping after `m` new_rcall calls from free list `free0`,
   * malloc position `next0` and current packet `rc0`: the first `m` packets
   * Taken came off the list or from malloc, and the last one is current.
   */
  ghost predicate Took(free0: seq<nat>, next0: nat, rc0: nat, m: nat, free: seq<nat>, next: nat, rc: nat)
  {
    && free == free0[Min(m, |free0|)..]
    && next == next0 + (m - Min(m, |free0|))
    && rc == (if m == 0 then rc0 else Taken(free0, next0, m - 1))
  }

  /** One more new_rcall extends the bookkeeping by one packet. */
  lemma TookStep(free0: seq<nat>, next0: nat, rc0: nat, m: nat, free: seq<nat>, next: nat, rc: nat,
                 free': seq<nat>, next': nat, rc': nat)
    requires Took(free0, next0, rc0, m, free, next, rc)
    requires Took(free, next, rc, 1, free', next', rc')
    ensures Took(free0, next0, rc0, m + 1, free', next', rc')
  {
    if m < |free0| {
      assert free[0] == free0[m];
      assert free[1..] == free0[m + 1..];
    }
  }

  class Connection {
    /** conn->msize: the capacity of every receive buffer. */
    const msize: nat
    /** conn->rbuf, and the `rbuf.pos` bytes buffered in it. */
    var rbuf: Npbuf
    var rdata: seq<Byte>
    /** conn->rcall: the packet the receive buffer points into. */
    var rcall: nat
    /** conn->freerclist and conn->freercnum. */
    var freelist: seq<nat>
    var freercnum: int
    /** Where malloc would place the next packet. */
    var nextPacket: nat
    /** The frames handed to np_conn_call_in, oldest first. */
    var requests: seq<seq<Byte>>
    /** The error np_conn_error was raised with, if any; np_conn_shutdown is not modelled. */
    var failure: Option<Error>
    /** conn->wbuf, conn->wcall, and the queue conn->rcalls (its tail pointer rcallp is the sequence's end). */
    var wbuf: Npbuf
    var wcall: Option<Reply>
    var rcalls: seq<Reply>

    ghost predicate Valid()
      reads this
    {
      && rbuf.pos == |rdata| && rbuf.size == msize && rbuf.pkt == Some(rcall)
      && freercnum == |freelist| <= MaxFree
      && wbuf.size == (if wcall.Some? then wcall.value.size else 0)
      && wbuf.pkt == (if wcall.Some? then Some(wcall.value.pkt) else None)
      && (rcalls != [] ==> wbuf.size > 0)
      && (forall i :: 0 <= i < |rcalls| ==> rcalls[i].size > 0)
    }

    /** The replies not yet fully handed to the transport: the current write, if any, then the queue. */
    ghost function Outstanding(): seq<Reply>
      reads this
    {
      (if wbuf.size > 0 && wcall.Some? then [wcall.value] else []) + rcalls
    }

    /**
     * np_conn_create: empty buffers and queues, a first receive packet
     * from malloc, and no current write.
     */
    constructor (msize: nat)
      ensures Valid() && this.msize == msize
      ensures rdata == [] && rcall == 0 && freelist == [] && nextPacket == 1
      ensures requests == [] && failure.None?
      ensures wcall.None? && wbuf.pos == 0 && rcalls == []
    {
      this.msize := msize;
      rbuf := Npbuf(0, 0, None);
      rdata := [];
      wbuf := Npbuf(0, 0, None);
      rcalls := [];
      wcall := None;
      freercnum := 0;
      freelist := [];
      nextPacket := 0;
      requests := [];
      failure := None;
      rcall := 0;
      new;
      NewRcall();
      NewWcall(None);
    }

    /**
     * np_conn_new_rcall: take the head of the free list, or a fresh packet
     * when it is empty, and point the receive buffer at it, empty.
     */
    method NewRcall()
      requires freercnum == |freelist| <= MaxFree
      modifies this`rbuf, this`rdata, this`rcall, this`freelist, this`freercnum, this`nextPacket
      ensures rcall == Taken(old(freelist), old(nextPacket), 0)
      ensures old(freelist) != [] ==> freelist == old(freelist)[1..] && nextPacket == old(nextPacket)
      ensures old(freelist) == [] ==> freelist == [] && nextPacket == old(nextPacket) + 1
      ensures freercnum == |freelist|
      ensures rbuf == BufSet(old(rbuf), Some(rcall), msize) && rdata == []
    {
      if freelist != [] {
        rcall := freelist[0];
        freelist := freelist[1..];
        freercnum := freercnum - 1;
      } else {
        rcall := nextPacket;
        nextPacket := nextPacket + 1;
      }
      rbuf := BufSet(rbuf, Some(rcall), msize);
      rdata := [];
    }

    /**
     * np_conn_free_rcall with the count kept, as evidently intended (see
     * FreeAsWritten): keep the packet while fewer than MaxFree are kept,
     * otherwise let it go.  `kept` says which.
     */
    method FreeRcall(rc: nat) returns (kept: bool)
      requires Valid()
      modifies this
      ensures Valid()
      ensures (freelist, freercnum) == FreeCounted(old(freelist), old(freercnum), rc)
      ensures kept <==> old(freercnum) < MaxFree
      ensures rbuf == old(rbuf) && rdata == old(rdata) && rcall == old(rcall) && nextPacket == old(nextPacket)
      ensures requests == old(requests) && failure == old(failure)
      ensures wbuf == old(wbuf) && wcall == old(wcall) && rcalls == old(rcalls)
    {
      kept := false;
      if freercnum < MaxFree {
        freelist := [rc] + freelist;
        freercnum := freercnum + 1;
        kept := true;
      }
    }

    /**
     * np_conn_new_wcall: make `wc` the current write (the previous one is
     * freed) and point the write buffer at it, or at nothing.
     */
    method NewWcall(wc: Option<Reply>)
      modifies this
      ensures wcall == wc
      ensures wbuf == BufSet(old(wbuf), if wc.Some? then Some(wc.value.pkt) else None,
                             if wc.Some? then wc.value.size else 0)
      ensures rbuf == old(rbuf) && rdata == old(rdata) && rcall == old(rcall)
      ensures freelist == old(freelist) && freercnum == old(freercnum) && nextPacket == old(nextPacket)
      ensures requests == old(requests) && failure == old(failure) && rcalls == old(rcalls)
    {
      wcall := wc;
      if wc.Some? {
        wbuf := BufSet(wbuf, Some(wc.value.pkt), wc.value.size);
      } else {
        wbuf := BufSet(wbuf, None, 0);
      }
    }

    /**
     * np_conn_send_fcall: with nothing being written, `rc` becomes the
     * current write; otherwise it joins the tail of the queue.  Either way
     * it is the last outstanding reply, behind all the earlier ones.  A
     * serialised 9P message is never empty.
     */
    method SendFcall(rc: Reply)
      requires Valid() && rc.size > 0
      modifies this
      ensures Valid()
      ensures Outstanding() == old(Outstanding()) + [rc]
      ensures old(wbuf.size) == 0 ==> wcall == Some(rc) && wbuf.pos == 0 && rcalls == old(rcalls)
      ensures old(wbuf.size) != 0 ==> rcalls == old(rcalls) + [rc] && wbuf == old(wbuf) && wcall == old(wcall)
      ensures rbuf == old(rbuf) && rdata == old(rdata) && rcall == old(rcall)
      ensures freelist == old(freelist) && nextPacket == old(nextPacket)
      ensures requests == old(requests) && failure == old(failure)
    {
      if wbuf.size == 0 {
        NewWcall(Some(rc));
      } else {
        rcalls := rcalls + [rc];
      }
    }

    /**
     * np_conn_data_out: once the current write is fully written, the head
     * of the queue (or nothing) becomes the current write.  So a finished
     * reply leaves the outstanding ones and the others keep their order.
     */
    method DataOut()
      requires Valid()
      modifies this
      ensures Valid()
      ensures old(wbuf.pos) < old(wbuf.size) ==> wbuf == old(wbuf) && wcall == old(wcall) && rcalls == old(rcalls)
      ensures old(wbuf.pos) >= old(wbuf.size) ==>
        && wbuf.pos == 0
        && wcall == (if old(rcalls) == [] then None else Some(old(rcalls)[0]))
        && rcalls == (if old(rcalls) == [] then [] else old(rcalls)[1..])
        && Outstanding() == (if old(wbuf.size) > 0 then old(Outstanding())[1..] else old(Outstanding()))
      ensures rbuf == old(rbuf) && rdata == old(rdata) && rcall == old(rcall)
      ensures freelist == old(freelist) && nextPacket == old(nextPacket)
      ensures requests == old(requests) && failure == old(failure)
    {
      if wbuf.pos < wbuf.size {
        return;
      }
      var rc: Option<Reply> := None;
      if rcalls != [] {
        rc := Some(rcalls[0]);
        rcalls := rcalls[1..];
      }
      NewWcall(rc);
    }

    /**
     * The state of the frame loop of np_conn_data_in that started on the
     * bytes `all`, with free list `free0`, next packet `next0`, receive
     * packet `rc0` and dispatched frames `req0`: the frames `done` are
     * dispatched and each took a packet; while the loop goes on, what is
     * left drains to the rest of Drain's result, and once it has stopped
     * Drain's result is reached, with `err` the error it stopped on.
     */
    ghost predicate Draining(all: seq<Byte>, free0: seq<nat>, next0: nat, rc0: nat, req0: seq<seq<Byte>>,
                             decodes: seq<Byte> -> bool, done: seq<seq<Byte>>, stopped: bool, err: Option<Error>)
      reads this
    {
      && requests == req0 + done
      && Took(free0, next0, rc0, |done|, freelist, nextPacket, rcall)
      && (!stopped ==> DrainsAs(all, done, rdata, msize, decodes) && err.None?)
      && (stopped ==> Drain(all, msize, decodes) == DrainResult(done, rdata, err))
    }

    /**
     * The frame loop of np_conn_data_in over the buffered bytes, as Drain
     * describes it.  Each dispatched frame moves the receive buffer to the
     * next packet new_rcall takes, and the bytes after the frame are moved
     * to its start.  `dispatched` counts the frames, `err` is the error the
     * loop stopped on.
     */
    method FrameLoop(decodes: seq<Byte> -> bool) returns (dispatched: nat, err: Option<Error>)
      requires Valid()
      modifies this`rbuf, this`rdata, this`rcall, this`freelist, this`freercnum, this`nextPacket, this`requests
      ensures Valid()
      ensures var d := Drain(old(rdata), msize, decodes);
        && requests == old(requests) + d.msgs
        && rdata == d.rest && err == d.err && dispatched == |d.msgs|
        && Took(old(freelist), old(nextPacket), old(rcall), |d.msgs|, freelist, nextPacket, rcall)
    {
      dispatched := 0;
      ghost var done: seq<seq<Byte>> := [];
      err := None;
      var stopped := false;
      assert old(requests) + [] == old(requests);
      while |rdata| > 4 && !stopped
        invariant Valid() && dispatched == |done|
        invariant Draining(old(rdata), old(freelist), old(nextPacket), old(rcall), old(requests), decodes, done, stopped, err)
        decreases |rdata|, if stopped then 0 else 1
      {
        err, stopped, done := FrameStep(decodes, old(rdata), old(freelist), old(nextPacket), old(rcall), old(requests), done);
        if !stopped {
          dispatched := dispatched + 1;
        }
      }
      if !stopped {
        DrainsAsHalt(old(rdata), done, rdata, msize, decodes);
      }
    }

    /**
     * np_conn_data_in: run the frame loop; an error it stops on becomes the
     * connection's failure (np_conn_error) and the transport is not told
     * about the receive buffer; otherwise `rxChanged` says whether any
     * frame moved the receive buffer.
     */
    method DataIn(decodes: seq<Byte> -> bool) returns (rxChanged: bool)
      requires Valid()
      modifies this`rbuf, this`rdata, this`rcall, this`freelist, this`freercnum, this`nextPacket, this`requests, this`failure
      ensures Valid()
      ensures var d := Drain(old(rdata), msize, decodes);
        var m := |d.msgs|;
        && requests == old(requests) + d.msgs
        && rdata == d.rest
        && failure == (if d.err.Some? then d.err else old(failure))
        && rxChanged == (m > 0 && d.err.None?)
        && Took(old(freelist), old(nextPacket), old(rcall), m, freelist, nextPacket, rcall)
    {
      var dispatched, err := FrameLoop(decodes);
      rxChanged := dispatched > 0 && err.None?;
      if err.Some? {
        // the loop returns without telling the transport
        failure := err;
      }
    }

    /**
     * One turn of the frame loop over more than four buffered bytes: stop
     * on an oversized, incomplete or undecodable frame, otherwise dispatch
     * it.  `done` holds the frames dispatched before this turn.
     */
    method FrameStep(decodes: seq<Byte> -> bool, ghost all: seq<Byte>, ghost free0: seq<nat>, ghost next0: nat,
                     ghost rc0: nat, ghost req0: seq<seq<Byte>>, ghost done: seq<seq<Byte>>)
      returns (err: Option<Error>, stopped: bool, ghost done': seq<seq<Byte>>)
      requires Valid() && |rdata| > 4 && Draining(all, free0, next0, rc0, req0, decodes, done, false, None)
      modifies this`rbuf, this`rdata, this`rcall, this`freelist, this`freercnum, this`nextPacket, this`requests
      ensures Valid() && Draining(all, free0, next0, rc0, req0, decodes, done', stopped, err)
      ensures stopped ==> done' == done
      ensures !stopped ==> |rdata| < old(|rdata|) && |done'| == |done| + 1
    {
      DrainsAsHalt(all, done, rdata, msize, decodes);
      done' := done;
      err := None;
      stopped := true;
      var check := FrameCheck(rdata, msize);
      if check == TooLarge {
        err := Some(ENOMEM);
      } else if check == Incomplete {
      } else {
        var n := check.n;
        // np_deserialize returns the frame's size, or 0 when it cannot decode it
        var decoded := if decodes(rdata[..n]) then n else 0;
        if decoded == 0 {
          err := Some(EPROTO);
        } else {
          DrainsAsStep(all, done, rdata, msize, decodes, n);
          done' := done + [rdata[..n]];
          ghost var free, next, rc := freelist, nextPacket, rcall;
          TakeFrame(n);
          TookStep(free0, next0, rc0, |done|, free, next, rc, freelist, nextPacket, rcall);
          stopped := false;
        }
      }
    }

    /**
     * The body of the frame loop once a frame of `n` bytes has decoded:
     * move to a new receive packet, move the bytes after the frame to its
     * start, and hand the frame to np_conn_call_in.
     */
    method TakeFrame(n: nat)
      requires Valid() && n <= |rdata|
      modifies this`rbuf, this`rdata, this`rcall, this`freelist, this`freercnum, this`nextPacket, this`requests
      ensures Valid()
      ensures rdata == old(rdata)[n..] && requests == old(requests) + [old(rdata)[..n]]
      ensures Took(old(freelist), old(nextPacket), old(rcall), 1, freelist, nextPacket, rcall)
    {
      var frame := rdata[..n];
      var rest := rdata[n..];
      NewRcall();
      rdata := rest;
      rbuf := rbuf.(pos := |rest|);
      requests := requests + [frame];
    }
  }
}
