/**
 * The poll table of the file-descriptor transport (libnpfs/fdtrans.c).
 *
 * One poller owns two parallel tables, `trans` (which transport a slot
 * serves) and `fds` (the pollfd handed to poll(2)).  Slot 0 is the
 * poller's own wake-up pipe.  Slots 1 .. fdnum-1 are being polled; new
 * transports are placed in the lowest empty slot at or above fdnum, and
 * poll_update_table compacts the table in place, frees the transports
 * that disconnected, and grows the table when it runs short.
 *
 * A transport whose input and output descriptors differ sits in two
 * slots, so the table holds aliases: transports are named by handles
 * (what malloc returned) and their state is a map from handles, and the
 * pointers pfdin / pfdout into the pollfd table are slot indices.
 */
module FdTrans {
  import opened Npfs

  /**
   * The poll(2) events the transport uses: POLLIN (0x001), POLLOUT (0x004),
   * POLLERR (0x008) and POLLHUP (0x010) on Linux.  An events mask is the set
   * of its bits: the code only ever ORs these four bits in and masks them
   * out, starting from 0 or POLLIN | POLLOUT.
   */
  datatype Event = PollIn | PollOut | PollErr | PollHup

  /** Bits of nppoll.flags. */
  const TblModified: bv8 := 1
  const Notified: bv8 := 2

  /** The slots poll_init allocates, and the number poll_update_table adds when it grows the table. */
  const InitialSlots := 32
  const Growth := 32

  /** struct pollfd without revents, which only poll_proc reads. */
  datatype PollFd = PollFd(fd: int, events: set<Event>)

  /**
   * The fields of an Fdtrans the poll table reads and writes; pfdin and
   * pfdout are slot indices, None where the pointer was never set.
   */
  datatype Transport = Transport(connected: bool, fdin: int, fdout: int, pfdin: Option<nat>, pfdout: Option<nat>)

  /** Which of the transport's two pollfd pointers a poll_add call fills in. */
  datatype Side = InSide | OutSide

  /** `*ppfd = &nppoll.fds[slot]` for the pointer of side `side`. */
  function Aim(t: Transport, side: Side, slot: nat): (t': Transport)
    ensures t'.connected == t.connected && t'.fdin == t.fdin && t'.fdout == t.fdout
    ensures side == InSide ==> t'.pfdin == Some(slot) && t'.pfdout == t.pfdout
    ensures side == OutSide ==> t'.pfdout == Some(slot) && t'.pfdin == t.pfdin
  {
    if side == InSide then t.(pfdin := Some(slot)) else t.(pfdout := Some(slot))
  }

  /** The pollfd table poll_init builds: the pipe's read end polled for input and output, the rest zero (calloc). */
  function InitialFds(pipeFd: int): (F: seq<PollFd>)
    ensures |F| == InitialSlots && F[0] == PollFd(pipeFd, {PollIn, PollOut})
  {
    seq(InitialSlots, j => if j == 0 then PollFd(pipeFd, {PollIn, PollOut}) else PollFd(0, {}))
  }

  /**
   * Slot p's events with `ev` set (on) or cleared (off): `ev` is then
   * present exactly when `on`, every other event and every other slot is as
   * it was.
   */
  function WithEvents(F: seq<PollFd>, p: nat, ev: Event, on: bool): (G: seq<PollFd>)
    requires p < |F|
    ensures |G| == |F| && G[p].fd == F[p].fd
    ensures ev in G[p].events <==> on
    ensures forall x :: x != ev ==> (x in G[p].events <==> x in F[p].events)
    ensures forall j :: 0 <= j < |F| && j != p ==> G[j] == F[j]
  {
    F[p := F[p].(events := if on then F[p].events + {ev} else F[p].events - {ev})]
  }

  /**
   * np_fdtrans_setrbuf as written: POLLIN is set on the input slot when a
   * receive buffer is offered, but cleared on the OUTPUT slot when it is
   * withdrawn.
   */
  function RxEventsAsWritten(F: seq<PollFd>, pin: nat, pout: nat, hasBuf: bool): (G: seq<PollFd>)
    requires pin < |F| && pout < |F|
    ensures |G| == |F|
  {
    if hasBuf then WithEvents(F, pin, PollIn, true) else WithEvents(F, pout, PollIn, false)
  }

  /**
   * With distinct input and output descriptors, withdrawing the receive
   * buffer as written leaves the input slot polled for input, where
   * clearing it on the input slot stops that.
   */
  lemma RxWithdrawLeavesInputPolled(F: seq<PollFd>, pin: nat, pout: nat)
    requires pin < |F| && pout < |F| && pin != pout
    requires PollIn in F[pin].events
    ensures PollIn in RxEventsAsWritten(F, pin, pout, false)[pin].events
    ensures PollIn !in WithEvents(F, pin, PollIn, false)[pin].events
  {
  }

  /** A slot poll_update_table keeps: it holds a transport that is still connected. */
  predicate Live(T: seq<Option<nat>>, tr: map<nat, Transport>, j: nat)
    requires j < |T|
  {
    T[j].Some? && T[j].value in tr && tr[T[j].value].connected
  }

  /** The live slots among 1 .. hi-1, in increasing order. */
  function LiveSlots(T: seq<Option<nat>>, tr: map<nat, Transport>, hi: nat): (ks: seq<nat>)
    requires hi <= |T|
    ensures hi >= 1 ==> |ks| < hi
    ensures forall k :: 0 <= k < |ks| ==> 1 <= ks[k] < hi && Live(T, tr, ks[k])
    ensures forall k, l :: 0 <= k < l < |ks| ==> ks[k] < ks[l]
    ensures forall j :: 1 <= j < hi && Live(T, tr, j) ==> j in ks
    decreases hi
  {
    if hi <= 1 then [] else LiveSlots(T, tr, hi - 1) + (if Live(T, tr, hi - 1) then [hi - 1] else [])
  }

  /** A slot holding a transport that is no longer connected. */
  predicate Dead(T: seq<Option<nat>>, tr: map<nat, Transport>, j: nat)
    requires j < |T|
  {
    T[j].Some? && !Live(T, tr, j)
  }

  /**
   * What poll_update_table frees as written: the transport of every dead
   * slot among 1 .. hi-1, once per slot.
   */
  function FreedAsWritten(T: seq<Option<nat>>, tr: map<nat, Transport>, hi: nat): seq<nat>
    requires hi <= |T|
    decreases hi
  {
    if hi <= 1 then [] else FreedAsWritten(T, tr, hi - 1) + (if Dead(T, tr, hi - 1) then [T[hi - 1].value] else [])
  }

  /** The transports of the dead slots among 1 .. hi-1, each once, at its first slot. */
  function FreedOnce(T: seq<Option<nat>>, tr: map<nat, Transport>, hi: nat): seq<nat>
    requires hi <= |T|
    decreases hi
  {
    if hi <= 1 then []
    else
      var fs := FreedOnce(T, tr, hi - 1);
      fs + (if Dead(T, tr, hi - 1) && T[hi - 1].value !in fs then [T[hi - 1].value] else [])
  }

  /** FreedOnce frees no transport twice, and frees exactly the transports the code as written frees. */
  lemma {:induction false} FreedOnceIsDistinct(T: seq<Option<nat>>, tr: map<nat, Transport>, hi: nat)
    requires hi <= |T|
    ensures forall k, l :: 0 <= k < l < |FreedOnce(T, tr, hi)| ==> FreedOnce(T, tr, hi)[k] != FreedOnce(T, tr, hi)[l]
    ensures forall h :: h in FreedOnce(T, tr, hi) <==> h in FreedAsWritten(T, tr, hi)
    decreases hi
  {
    if hi > 1 {
      FreedOnceIsDistinct(T, tr, hi - 1);
    }
  }

  /**
   * A disconnected transport with distinct descriptors sits in slots 1
   * and 2; poll_update_table as written frees it at slot 1, then reads the
   * freed object at slot 2 and frees it a second time.
   */
  lemma DisconnectedPairFreedTwice()
    ensures FreedAsWritten([None, Some(0), Some(0)], map[0 := Transport(false, 3, 4, Some(1), Some(2))], 3) == [0, 0]
    ensures FreedOnce([None, Some(0), Some(0)], map[0 := Transport(false, 3, 4, Some(1), Some(2))], 3) == [0]
  {
    var T: seq<Option<nat>> := [None, Some(0), Some(0)];
    var tr := map[0 := Transport(false, 3, 4, Some(1), Some(2))];
    assert Dead(T, tr, 1) && Dead(T, tr, 2) && !Dead(T, tr, 0);
    assert FreedOnce(T, tr, 2) == [0];
  }

  /** No transport sits in two slots with the same descriptor. */
  ghost predicate Unique(T: seq<Option<nat>>, F: seq<PollFd>)
  {
    |T| == |F| && forall i, j :: 1 <= i < j < |T| && T[i].Some? && T[i] == T[j] ==> F[i].fd != F[j].fd
  }

  /** The slot holding a transport's input (output) descriptor is the one its pfdin (pfdout) names. */
  ghost predicate Pointed(T: seq<Option<nat>>, F: seq<PollFd>, tr: map<nat, Transport>)
  {
    |T| == |F| && forall j :: 1 <= j < |T| && T[j].Some? && T[j].value in tr ==>
      && (F[j].fd == tr[T[j].value].fdin ==> tr[T[j].value].pfdin == Some(j))
      && (F[j].fd == tr[T[j].value].fdout ==> tr[T[j].value].pfdout == Some(j))
  }

  ghost predicate Linked(T: seq<Option<nat>>, F: seq<PollFd>, tr: map<nat, Transport>)
  {
    Unique(T, F) && Pointed(T, F, tr)
  }

  /** Placing transport h, in state t, in the empty slot s keeps the table linked when t points at s and at h's other slots. */
  lemma LinkedAdd(T: seq<Option<nat>>, F: seq<PollFd>, tr: map<nat, Transport>, s: nat, h: nat, fd: int, e: set<Event>, t: Transport)
    requires Linked(T, F, tr) && 1 <= s < |T| && T[s].None?
    requires forall j :: 1 <= j < |T| && T[j] == Some(h) ==> F[j].fd != fd
    requires forall j :: 1 <= j < |T| && T[j] == Some(h) ==>
      (F[j].fd == t.fdin ==> t.pfdin == Some(j)) && (F[j].fd == t.fdout ==> t.pfdout == Some(j))
    requires (fd == t.fdin ==> t.pfdin == Some(s)) && (fd == t.fdout ==> t.pfdout == Some(s))
    ensures Linked(T[s := Some(h)], F[s := PollFd(fd, e)], tr[h := t])
  {
    var T', F', tr' := T[s := Some(h)], F[s := PollFd(fd, e)], tr[h := t];
    forall j | 1 <= j < |T'| && T'[j].Some? && T'[j].value in tr'
      ensures (F'[j].fd == tr'[T'[j].value].fdin ==> tr'[T'[j].value].pfdin == Some(j))
      ensures (F'[j].fd == tr'[T'[j].value].fdout ==> tr'[T'[j].value].pfdout == Some(j))
    {
      if j != s && T[j] != Some(h) {
        assert T'[j] == T[j] && F'[j] == F[j] && tr'[T[j].value] == tr[T[j].value];
      }
    }
  }

  /** A transport no slot holds can change freely without unlinking the table. */
  lemma LinkedOtherKey(T: seq<Option<nat>>, F: seq<PollFd>, tr: map<nat, Transport>, h: nat, t: Transport)
    requires Linked(T, F, tr)
    requires forall j :: 1 <= j < |T| ==> T[j] != Some(h)
    ensures Linked(T, F, tr[h := t])
  {
    forall j | 1 <= j < |T| && T[j].Some? && T[j].value in tr[h := t]
      ensures T[j].value in tr && tr[h := t][T[j].value] == tr[T[j].value]
    {
      assert T[j] != Some(h);
    }
  }

  /** A transport whose state changed only in fields other than its descriptors and pointers leaves the table linked. */
  lemma LinkedSamePointers(T: seq<Option<nat>>, F: seq<PollFd>, tr: map<nat, Transport>, h: nat, t: Transport)
    requires Linked(T, F, tr) && h in tr
    requires t.fdin == tr[h].fdin && t.fdout == tr[h].fdout && t.pfdin == tr[h].pfdin && t.pfdout == tr[h].pfdout
    ensures Linked(T, F, tr[h := t])
  {
    assert forall g :: g in tr ==> (g in tr[h := t] && tr[h := t][g].fdin == tr[g].fdin && tr[h := t][g].fdout == tr[g].fdout
                                    && tr[h := t][g].pfdin == tr[g].pfdin && tr[h := t][g].pfdout == tr[g].pfdout);
  }

  /** Changing the events of a slot leaves the table linked: only descriptors matter. */
  lemma LinkedEvents(T: seq<Option<nat>>, F: seq<PollFd>, tr: map<nat, Transport>, p: nat, e: set<Event>)
    requires Linked(T, F, tr) && p < |F|
    ensures Linked(T, F[p := F[p].(events := e)], tr)
  {
    assert forall j :: 0 <= j < |F| ==> F[p := F[p].(events := e)][j].fd == F[j].fd;
  }

  /** The transports differ at most in their pollfd pointers. */
  ghost predicate SameRegs(tr0: map<nat, Transport>, tr: map<nat, Transport>)
  {
    && tr.Keys == tr0.Keys
    && forall h :: h in tr && h in tr0 ==>
      tr[h].connected == tr0[h].connected && tr[h].fdin == tr0[h].fdin && tr[h].fdout == tr0[h].fdout
  }

  /** Moving a live slot i down to the first free slot n (lines 314-323): the trans entry moves and slot i empties; the pollfd is copied. */
  function Shift(T: seq<Option<nat>>, i: nat, n: nat): (T': seq<Option<nat>>)
    requires n <= i < |T|
    ensures |T'| == |T| && T'[n] == T[i]
    ensures i != n ==> T'[i].None?
    ensures forall j :: 0 <= j < |T| && j != n && j != i ==> T'[j] == T[j]
  {
    if i != n then T[n := T[i]][i := None] else T
  }

  function ShiftFds(F: seq<PollFd>, i: nat, n: nat): (F': seq<PollFd>)
    requires n <= i < |F|
    ensures |F'| == |F| && F'[n] == F[i]
    ensures forall j :: 0 <= j < |F| && j != n ==> F'[j] == F[j]
  {
    if i != n then F[n := F[i]] else F
  }

  /**
   * Lines 317-320 for a slot that moved to n holding descriptor fd of
   * transport h: the pointer of whichever of h's descriptors it is now
   * names slot n.
   */
  function Repoint(tr: map<nat, Transport>, h: nat, fd: int, n: nat): (tr': map<nat, Transport>)
    requires h in tr
    ensures tr'.Keys == tr.Keys && SameRegs(tr, tr')
    ensures forall g :: g in tr && g != h ==> tr'[g] == tr[g]
    ensures tr'[h].pfdin == (if fd == tr[h].fdin then Some(n) else tr[h].pfdin)
    ensures tr'[h].pfdout == (if fd == tr[h].fdout then Some(n) else tr[h].pfdout)
  {
    var t := tr[h];
    var t1 := if fd == t.fdin then t.(pfdin := Some(n)) else t;
    tr[h := if fd == t1.fdout then t1.(pfdout := Some(n)) else t1]
  }

  /** The slot bookkeeping holds at the start of compaction. */
  lemma LayoutStart(T0: seq<Option<nat>>, F0: seq<PollFd>, tr0: map<nat, Transport>)
    requires |T0| == |F0| && 1 <= |T0|
    ensures Layout(T0, F0, tr0, T0, F0, 1, 1)
  {
  }

  /**
   * The table part-way through poll_update_table, at slot i with n slots
   * filled: slots 1 .. n-1 hold the live slots of the original table T0
   * below i, in order; slots n .. i-1 are empty; slots from i on are as
   * they were; no pollfd at or above n has been written.
   */
  ghost predicate Layout(T0: seq<Option<nat>>, F0: seq<PollFd>, tr0: map<nat, Transport>,
                         T: seq<Option<nat>>, F: seq<PollFd>, i: nat, n: nat)
  {
    && |T0| == |F0| == |T| == |F| && 1 <= n <= i <= |T0|
    && T[0] == T0[0] && F[0] == F0[0]
    && n == 1 + |LiveSlots(T0, tr0, i)|
    && (forall k :: 0 <= k < |LiveSlots(T0, tr0, i)| ==>
          T[1 + k] == T0[LiveSlots(T0, tr0, i)[k]] && F[1 + k] == F0[LiveSlots(T0, tr0, i)[k]])
    && (forall j :: n <= j < i ==> T[j].None?)
    && (forall j :: i <= j < |T| ==> T[j] == T0[j])
    && (forall j :: n <= j < |F| ==> F[j] == F0[j])
  }

  /** A live slot i moves down to n. */
  lemma LayoutKeep(T0: seq<Option<nat>>, F0: seq<PollFd>, tr0: map<nat, Transport>,
                   T: seq<Option<nat>>, F: seq<PollFd>, i: nat, n: nat)
    requires Layout(T0, F0, tr0, T, F, i, n) && i < |T0| && Live(T0, tr0, i)
    ensures Layout(T0, F0, tr0, Shift(T, i, n), ShiftFds(F, i, n), i + 1, n + 1)
  {
    var ks := LiveSlots(T0, tr0, i);
    assert LiveSlots(T0, tr0, i + 1) == ks + [i];
    var T', F' := Shift(T, i, n), ShiftFds(F, i, n);
    forall k | 0 <= k < |ks| + 1
      ensures T'[1 + k] == T0[(ks + [i])[k]] && F'[1 + k] == F0[(ks + [i])[k]]
    {
      if k < |ks| {
        assert (ks + [i])[k] == ks[k];
      }
    }
  }

  /** A dead or empty slot i is emptied and nothing moves. */
  lemma LayoutDrop(T0: seq<Option<nat>>, F0: seq<PollFd>, tr0: map<nat, Transport>,
                   T: seq<Option<nat>>, F: seq<PollFd>, i: nat, n: nat)
    requires Layout(T0, F0, tr0, T, F, i, n) && i < |T0| && !Live(T0, tr0, i)
    ensures Layout(T0, F0, tr0, T[i := None], F, i + 1, n)
  {
    assert LiveSlots(T0, tr0, i + 1) == LiveSlots(T0, tr0, i);
  }

  /** Moving a slot down to an empty one and repointing its transport keeps the table linked. */
  lemma LinkedShift(T: seq<Option<nat>>, F: seq<PollFd>, tr: map<nat, Transport>, i: nat, n: nat)
    requires Linked(T, F, tr) && 1 <= n < i < |T| && T[n].None? && T[i].Some? && T[i].value in tr
    ensures Linked(Shift(T, i, n), ShiftFds(F, i, n), Repoint(tr, T[i].value, F[i].fd, n))
  {
    var h := T[i].value;
    var T', F', tr' := Shift(T, i, n), ShiftFds(F, i, n), Repoint(tr, h, F[i].fd, n);
    forall a, b | 1 <= a < b < |T'| && T'[a].Some? && T'[a] == T'[b]
      ensures F'[a].fd != F'[b].fd
    {
      var a0 := if a == n then i else a;
      var b0 := if b == n then i else b;
      assert T'[a] == T[a0] && F'[a] == F[a0] && T'[b] == T[b0] && F'[b] == F[b0];
      if a0 > b0 {
        assert F[b0].fd != F[a0].fd;
      }
    }
    forall j | 1 <= j < |T'| && T'[j].Some? && T'[j].value in tr'
      ensures (F'[j].fd == tr'[T'[j].value].fdin ==> tr'[T'[j].value].pfdin == Some(j))
      ensures (F'[j].fd == tr'[T'[j].value].fdout ==> tr'[T'[j].value].pfdout == Some(j))
    {
      if j != n && T'[j] == Some(h) {
        assert T'[j] == T[j] && F'[j] == F[j];
        assert F[j].fd != F[i].fd by {
          if j < i {
            assert T[j] == T[i];
          } else {
            assert T[i] == T[j];
          }
        }
      }
    }
  }

  /** Emptying a slot keeps the table linked. */
  lemma LinkedDrop(T: seq<Option<nat>>, F: seq<PollFd>, tr: map<nat, Transport>, i: nat)
    requires Linked(T, F, tr) && i < |T|
    ensures Linked(T[i := None], F, tr)
  {
    forall a, b | 1 <= a < b < |T| && T[i := None][a].Some? && T[i := None][a] == T[i := None][b]
      ensures F[a].fd != F[b].fd
    {
      assert T[a] == T[b];
    }
  }

  /** Adding empty slots keeps the table linked, whatever pollfds they hold. */
  lemma LinkedGrow(T: seq<Option<nat>>, F: seq<PollFd>, tr: map<nat, Transport>, T': seq<Option<nat>>, F': seq<PollFd>)
    requires Linked(T, F, tr) && |T'| == |F'| >= |T|
    requires T'[..|T|] == T && F'[..|T|] == F
    requires forall j :: |T| <= j < |T'| ==> T'[j].None?
    ensures Linked(T', F', tr)
  {
    forall a, b | 1 <= a < b < |T'| && T'[a].Some? && T'[a] == T'[b]
      ensures F'[a].fd != F'[b].fd
    {
      assert T'[a] == T[a] && T'[b] == T[b] && F'[a] == F[a] && F'[b] == F[b];
    }
    forall j | 1 <= j < |T'| && T'[j].Some? && T'[j].value in tr
      ensures (F'[j].fd == tr[T'[j].value].fdin ==> tr[T'[j].value].pfdin == Some(j))
      ensures (F'[j].fd == tr[T'[j].value].fdout ==> tr[T'[j].value].pfdout == Some(j))
    {
      assert T'[j] == T[j] && F'[j] == F[j];
    }
  }

  /** Every slot's handle names a transport. */
  ghost predicate Held(T: seq<Option<nat>>, tr: map<nat, Transport>)
  {
    forall j :: 0 <= j < |T| && T[j].Some? ==> T[j].value in tr
  }

  /**
   * poll_update_table at slot i with n slots filled, started from table
   * T0 / F0, transports tr0 and freed list fr0: the slots are laid out as
   * Layout says, the transports changed only in their pointers, the dead
   * ones among slots 1 .. i-1 are freed once each, and the table is linked.
   */
  ghost predicate Compact(T0: seq<Option<nat>>, F0: seq<PollFd>, tr0: map<nat, Transport>, fr0: seq<nat>, i: nat, n: nat,
                          T: seq<Option<nat>>, F: seq<PollFd>, tr: map<nat, Transport>, fr: seq<nat>)
  {
    && Layout(T0, F0, tr0, T, F, i, n)
    && SameRegs(tr0, tr)
    && fr == fr0 + FreedOnce(T0, tr0, i)
    && Linked(T, F, tr) && Held(T, tr)
  }

  /** An empty slot is passed over. */
  lemma CompactSkip(T0: seq<Option<nat>>, F0: seq<PollFd>, tr0: map<nat, Transport>, fr0: seq<nat>, i: nat, n: nat,
                    T: seq<Option<nat>>, F: seq<PollFd>, tr: map<nat, Transport>, fr: seq<nat>)
    requires Compact(T0, F0, tr0, fr0, i, n, T, F, tr, fr) && i < |T| && T[i].None?
    ensures Compact(T0, F0, tr0, fr0, i + 1, n, T, F, tr, fr)
  {
    assert T0[i] == T[i];
    LayoutSkip(T0, F0, tr0, T, F, i, n);
    FreedSkip(T0, tr0, i);
  }

  /** An empty slot leaves the layout as it is. */
  lemma LayoutSkip(T0: seq<Option<nat>>, F0: seq<PollFd>, tr0: map<nat, Transport>,
                   T: seq<Option<nat>>, F: seq<PollFd>, i: nat, n: nat)
    requires Layout(T0, F0, tr0, T, F, i, n) && i < |T0| && T[i].None?
    ensures Layout(T0, F0, tr0, T, F, i + 1, n)
  {
    assert !Live(T0, tr0, i);
    assert LiveSlots(T0, tr0, i + 1) == LiveSlots(T0, tr0, i);
  }

  /** A slot that holds no dead transport frees nothing. */
  lemma FreedSkip(T0: seq<Option<nat>>, tr0: map<nat, Transport>, i: nat)
    requires i < |T0| && !Dead(T0, tr0, i)
    ensures FreedOnce(T0, tr0, i + 1) == FreedOnce(T0, tr0, i)
  {
  }

  /** A disconnected transport's slot is emptied and the transport freed unless it already was. */
  lemma CompactFree(T0: seq<Option<nat>>, F0: seq<PollFd>, tr0: map<nat, Transport>, fr0: seq<nat>, i: nat, n: nat,
                    T: seq<Option<nat>>, F: seq<PollFd>, tr: map<nat, Transport>, fr: seq<nat>)
    requires Compact(T0, F0, tr0, fr0, i, n, T, F, tr, fr) && i < |T| && T[i].Some? && !tr[T[i].value].connected
    ensures Compact(T0, F0, tr0, fr0, i + 1, n, T[i := None], F, tr,
                    fr + (if T[i].value in fr[|fr0|..] then [] else [T[i].value]))
  {
    var h := T[i].value;
    assert T0[i] == T[i] && h in tr0;
    assert Dead(T0, tr0, i);
    assert fr[|fr0|..] == FreedOnce(T0, tr0, i);
    LayoutDrop(T0, F0, tr0, T, F, i, n);
    LinkedDrop(T, F, tr, i);
  }

  /** A connected transport's slot moves down to n, or stays when it is n. */
  lemma CompactKeep(T0: seq<Option<nat>>, F0: seq<PollFd>, tr0: map<nat, Transport>, fr0: seq<nat>, i: nat, n: nat,
                    T: seq<Option<nat>>, F: seq<PollFd>, tr: map<nat, Transport>, fr: seq<nat>)
    requires Compact(T0, F0, tr0, fr0, i, n, T, F, tr, fr) && i < |T| && T[i].Some? && tr[T[i].value].connected
    ensures Compact(T0, F0, tr0, fr0, i + 1, n + 1, Shift(T, i, n), ShiftFds(F, i, n),
                    if i == n then tr else Repoint(tr, T[i].value, F[i].fd, n), fr)
  {
    var h := T[i].value;
    assert T0[i] == T[i] && h in tr0;
    assert Live(T0, tr0, i);
    FreedSkip(T0, tr0, i);
    LayoutKeep(T0, F0, tr0, T, F, i, n);
    if i != n {
      assert T[n].None?;
      LinkedShift(T, F, tr, i, n);
      var T' := Shift(T, i, n);
      var tr' := Repoint(tr, h, F[i].fd, n);
      assert forall j :: 0 <= j < |T'| && T'[j].Some? ==> T'[j].value in tr' by {
        forall j | 0 <= j < |T'| && T'[j].Some?
          ensures T'[j].value in tr'
        {
          if j != n && j != i {
            assert T'[j] == T[j];
          }
        }
      }
    }
  }

  /** At the end of the loop the layout is the one poll_update_table promises. */
  lemma CompactDone(T0: seq<Option<nat>>, F0: seq<PollFd>, tr0: map<nat, Transport>, fr0: seq<nat>, n: nat,
                    T: seq<Option<nat>>, F: seq<PollFd>, tr: map<nat, Transport>, fr: seq<nat>)
    requires Compact(T0, F0, tr0, fr0, |T0|, n, T, F, tr, fr)
    ensures var ks := LiveSlots(T0, tr0, |T0|);
      && n == 1 + |ks|
      && (forall k :: 0 <= k < |ks| ==> T[1 + k] == T0[ks[k]] && F[1 + k] == F0[ks[k]])
      && (forall j :: 1 <= j < n ==> T[j].Some?)
      && (forall j :: n <= j < |T| ==> T[j].None?)
  {
    var ks := LiveSlots(T0, tr0, |T0|);
    forall j | 1 <= j < n
      ensures T[j].Some?
    {
      assert T[1 + (j - 1)] == T0[ks[j - 1]] && Live(T0, tr0, ks[j - 1]);
    }
  }

  /**
   * The table after poll_update_table, from table T0 / F0, transports tr0
   * and freed list fr0, with fdnum n: slots 1 .. n-1 hold the live slots of
   * T0 in their order; the slots from n on are empty; slot 0's pollfd and
   * the pollfds from n to the old size are as they were; the dead
   * transports are freed once each; the transports changed only in their
   * pointers.  The tables may be longer than T0 when they grew.
   */
  ghost predicate Compacted(T0: seq<Option<nat>>, F0: seq<PollFd>, tr0: map<nat, Transport>, fr0: seq<nat>, n: nat,
                            T: seq<Option<nat>>, F: seq<PollFd>, tr: map<nat, Transport>, fr: seq<nat>)
  {
    var ks := LiveSlots(T0, tr0, |T0|);
    && |F0| == |T0| && |T0| <= |T| && |F| == |T| && 1 <= |T0|
    && n == 1 + |ks|
    && (forall k :: 0 <= k < |ks| ==> T[1 + k] == T0[ks[k]] && F[1 + k] == F0[ks[k]])
    && (forall j :: n <= j < |T| ==> T[j].None?)
    && F[0] == F0[0] && (forall j :: n <= j < |T0| ==> F[j] == F0[j])
    && fr == fr0 + FreedOnce(T0, tr0, |T0|)
    && SameRegs(tr0, tr)
  }

  /** Growing the tables by empty slots keeps the compacted layout. */
  lemma GrowCompacted(T0: seq<Option<nat>>, F0: seq<PollFd>, tr0: map<nat, Transport>, fr0: seq<nat>, n: nat,
                      T: seq<Option<nat>>, F: seq<PollFd>, tr: map<nat, Transport>, fr: seq<nat>,
                      T': seq<Option<nat>>, F': seq<PollFd>)
    requires Compacted(T0, F0, tr0, fr0, n, T, F, tr, fr)
    requires T' == T + seq(Growth, _ => None) && |F'| == |T'| && F'[..|F|] == F
    ensures Compacted(T0, F0, tr0, fr0, n, T', F', tr, fr)
  {
    var ks := LiveSlots(T0, tr0, |T0|);
    forall k | 0 <= k < |ks|
      ensures T'[1 + k] == T0[ks[k]] && F'[1 + k] == F0[ks[k]]
    {
      assert T'[1 + k] == T[1 + k] && F'[1 + k] == F[1 + k];
    }
    forall j | n <= j < |T0|
      ensures F'[j] == F0[j]
    {
      assert F'[j] == F[j];
    }
  }

  /** Storing an entry that equals the one present leaves the map as it was. */
  lemma SameEntry(m: map<nat, Transport>, h: nat, t: Transport)
    requires h in m && t == m[h]
    ensures m[h := t] == m
  {
  }

  /** The number of empty slots from lo on. */
  function Empties(T: seq<Option<nat>>, lo: nat): nat
    decreases |T| - lo
  {
    if lo >= |T| then 0 else (if T[lo].None? then 1 else 0) + Empties(T, lo + 1)
  }

  /** Some slot from lo on is empty exactly when the count of empty slots is positive. */
  lemma {:induction false} EmptiesPositive(T: seq<Option<nat>>, lo: nat)
    ensures Empties(T, lo) > 0 <==> exists j :: lo <= j < |T| && T[j].None?
    decreases |T| - lo
  {
    if lo < |T| {
      EmptiesPositive(T, lo + 1);
      if T[lo].Some? && exists j :: lo <= j < |T| && T[j].None? {
        var j :| lo <= j < |T| && T[j].None?;
        assert lo + 1 <= j;
      }
    }
  }

  /** Filling one empty slot from lo on leaves one empty slot fewer. */
  lemma {:induction false} EmptiesFill(T: seq<Option<nat>>, lo: nat, s: nat, x: nat)
    requires lo <= s < |T| && T[s].None?
    ensures Empties(T[s := Some(x)], lo) == Empties(T, lo) - 1
    decreases |T| - lo
  {
    if lo < s {
      EmptiesFill(T, lo + 1, s, x);
    } else {
      EmptiesSame(T, T[s := Some(x)], lo + 1);
    }
  }

  /** Two tables that agree from lo on have as many empty slots there. */
  lemma {:induction false} EmptiesSame(T: seq<Option<nat>>, T': seq<Option<nat>>, lo: nat)
    requires |T| == |T'| && forall j :: lo <= j < |T| ==> T[j] == T'[j]
    ensures Empties(T, lo) == Empties(T', lo)
    decreases |T| - lo
  {
    if lo < |T| {
      EmptiesSame(T, T', lo + 1);
    }
  }

  /**
   * What poll_add does to the table T0 / F0 and transports tr0, polled from
   * slot st on: ok says whether an empty slot was found; if so s is the
   * lowest, it now holds h and polls fd for e and errors, and h's pointer
   * on `side` names it; otherwise nothing changed.
   */
  ghost predicate Added(T0: seq<Option<nat>>, F0: seq<PollFd>, tr0: map<nat, Transport>, st: nat,
                        ok: bool, s: nat, T: seq<Option<nat>>, F: seq<PollFd>, tr: map<nat, Transport>,
                        h: nat, fd: int, e: set<Event>, side: Side)
  {
    && 1 <= st <= |T0| && |F0| == |T0|
    && (ok <==> exists j :: st <= j < |T0| && T0[j].None?)
    && (ok ==> (&& st <= s < |T0| && T0[s].None?
                && (forall j :: st <= j < s ==> T0[j].Some?)
                && T == T0[s := Some(h)]
                && F == F0[s := PollFd(fd, e + {PollErr, PollHup})]
                && h in tr0 && tr == tr0[h := Aim(tr0[h], side, s)]))
    && (!ok ==> T == T0 && F == F0 && tr == tr0)
  }

  /** Slot p of T / F polls descriptor fd for transport h, with no events of its own yet. */
  ghost predicate Serves(T: seq<Option<nat>>, F: seq<PollFd>, h: nat, p: nat, fd: int)
  {
    p < |T| && p < |F| && T[p] == Some(h) && F[p] == PollFd(fd, {PollErr, PollHup})
  }

  /** Every slot either is as it was or was empty and now holds h. */
  ghost predicate OnlyFilled(T0: seq<Option<nat>>, F0: seq<PollFd>, T: seq<Option<nat>>, F: seq<PollFd>, h: nat)
  {
    |T| == |T0| && |F| == |T| && |F0| == |T0|
    && forall j :: 0 <= j < |T| ==> (T[j] == T0[j] && F[j] == F0[j]) || (T0[j].None? && T[j] == Some(h))
  }

  /** Filling empty slots twice over fills only empty slots. */
  lemma OnlyFilledTwice(T0: seq<Option<nat>>, F0: seq<PollFd>, T1: seq<Option<nat>>, F1: seq<PollFd>,
                        T2: seq<Option<nat>>, F2: seq<PollFd>, h: nat)
    requires OnlyFilled(T0, F0, T1, F1, h) && OnlyFilled(T1, F1, T2, F2, h)
    ensures OnlyFilled(T0, F0, T2, F2, h)
  {
    forall j | 0 <= j < |T2|
      ensures (T2[j] == T0[j] && F2[j] == F0[j]) || (T0[j].None? && T2[j] == Some(h))
    {
      assert (T1[j] == T0[j] && F1[j] == F0[j]) || (T0[j].None? && T1[j] == Some(h));
      assert (T2[j] == T1[j] && F2[j] == F1[j]) || (T1[j].None? && T2[j] == Some(h));
    }
  }

  /** The first poll_add of a pair, for fdin (line 102). */
  lemma FirstAdded(T0: seq<Option<nat>>, F0: seq<PollFd>, tr0: map<nat, Transport>, st: nat,
                   ok: bool, s: nat, T1: seq<Option<nat>>, F1: seq<PollFd>, tr1: map<nat, Transport>,
                   h: nat, fdin: int, fdout: int)
    requires Linked(T0, F0, tr0) && h in tr0 && tr0[h] == Transport(true, fdin, fdout, None, None) && fdin != fdout
    requires forall j :: 0 <= j < |T0| ==> T0[j] != Some(h)
    requires Added(T0, F0, tr0, st, ok, s, T1, F1, tr1, h, fdin, {}, InSide)
    ensures Linked(T1, F1, tr1) && OnlyFilled(T0, F0, T1, F1, h)
    ensures h in tr1 && tr1 == tr0[h := tr1[h]]
    ensures tr1[h] == Transport(true, fdin, fdout, if ok then Some(s) else None, None)
    ensures forall j :: 0 <= j < |T1| && T1[j] == Some(h) ==> ok && j == s && F1[j].fd == fdin
    ensures ok ==> Serves(T1, F1, h, s, fdin)
    ensures (ok <==> Empties(T0, st) >= 1) && Empties(T1, st) == if ok then Empties(T0, st) - 1 else 0
  {
    EmptiesPositive(T0, st);
    if ok {
      LinkedAdd(T0, F0, tr0, s, h, fdin, {}, tr1[h]);
      EmptiesFill(T0, st, s, h);
    }
  }

  /** The second poll_add of a pair, for fdout (line 103), after the first placed fdin at slot p or nowhere. */
  lemma SecondAdded(T1: seq<Option<nat>>, F1: seq<PollFd>, tr1: map<nat, Transport>, st: nat,
                    ok: bool, s: nat, T2: seq<Option<nat>>, F2: seq<PollFd>, tr2: map<nat, Transport>,
                    h: nat, fdin: int, fdout: int, p: Option<nat>)
    requires Linked(T1, F1, tr1) && h in tr1 && tr1[h] == Transport(true, fdin, fdout, p, None) && fdin != fdout
    requires forall j :: 0 <= j < |T1| && T1[j] == Some(h) ==> p == Some(j) && F1[j].fd == fdin
    requires Added(T1, F1, tr1, st, ok, s, T2, F2, tr2, h, fdout, {}, OutSide)
    ensures Linked(T2, F2, tr2) && OnlyFilled(T1, F1, T2, F2, h)
    ensures h in tr2 && tr2 == tr1[h := tr2[h]]
    ensures tr2[h] == Transport(true, fdin, fdout, p, if ok then Some(s) else None)
    ensures ok <==> Empties(T1, st) >= 1
    ensures ok ==> Serves(T2, F2, h, s, fdout)
    ensures p.Some? && Serves(T1, F1, h, p.value, fdin) ==> Serves(T2, F2, h, p.value, fdin)
  {
    EmptiesPositive(T1, st);
    if ok {
      LinkedAdd(T1, F1, tr1, s, h, fdout, {}, tr2[h]);
    }
  }

  /**
   * What np_fdtrans_create leaves behind, from table T0 / F0, transports
   * tr0 and first polled slot st: the table is linked; only empty slots
   * were filled, with h; h is the one new transport, with the two
   * descriptors, connected exactly when the table had room for each
   * distinct descriptor, and then its pointers name slots polling them.
   */
  ghost predicate Created(T0: seq<Option<nat>>, F0: seq<PollFd>, tr0: map<nat, Transport>, st: nat,
                          T: seq<Option<nat>>, F: seq<PollFd>, tr: map<nat, Transport>,
                          h: nat, fdin: int, fdout: int, connected: bool)
  {
    && Linked(T, F, tr) && OnlyFilled(T0, F0, T, F, h)
    && h in tr && tr == tr0[h := tr[h]]
    && tr[h].fdin == fdin && tr[h].fdout == fdout && tr[h].connected == connected
    && (connected <==> Empties(T0, st) >= if fdin == fdout then 1 else 2)
    && (connected ==> (&& tr[h].pfdin.Some? && tr[h].pfdout.Some?
                       && Serves(T, F, h, tr[h].pfdin.value, fdin) && Serves(T, F, h, tr[h].pfdout.value, fdout)))
  }

  /** The two poll_add calls for a transport with distinct descriptors, and the connected flag (lines 102-104, 111). */
  lemma PairAdded(base: map<nat, Transport>, T0: seq<Option<nat>>, F0: seq<PollFd>, tr0: map<nat, Transport>, st: nat,
                  ok1: bool, s1: nat, T1: seq<Option<nat>>, F1: seq<PollFd>, tr1: map<nat, Transport>,
                  ok2: bool, s2: nat, T2: seq<Option<nat>>, F2: seq<PollFd>, tr2: map<nat, Transport>,
                  h: nat, fdin: int, fdout: int)
    requires Linked(T0, F0, tr0) && tr0 == base[h := Transport(true, fdin, fdout, None, None)] && fdin != fdout
    requires forall j :: 0 <= j < |T0| ==> T0[j] != Some(h)
    requires Added(T0, F0, tr0, st, ok1, s1, T1, F1, tr1, h, fdin, {}, InSide)
    requires Added(T1, F1, tr1, st, ok2, s2, T2, F2, tr2, h, fdout, {}, OutSide)
    ensures h in tr2 && Created(T0, F0, base, st, T2, F2, tr2[h := tr2[h].(connected := ok1 && ok2)], h, fdin, fdout, ok1 && ok2)
  {
    FirstAdded(T0, F0, tr0, st, ok1, s1, T1, F1, tr1, h, fdin, fdout);
    var p := if ok1 then Some(s1) else None;
    SecondAdded(T1, F1, tr1, st, ok2, s2, T2, F2, tr2, h, fdin, fdout, p);
    OnlyFilledTwice(T0, F0, T1, F1, T2, F2, h);
    var t := tr2[h].(connected := ok1 && ok2);
    LinkedSamePointers(T2, F2, tr2, h, t);
    Overwrite(base, h, Transport(true, fdin, fdout, None, None), tr1[h]);
    Overwrite(base, h, tr1[h], tr2[h]);
    Overwrite(base, h, tr2[h], t);
  }

  /** The one poll_add for a transport whose descriptors are the same, pfdout copied from pfdin, and the connected flag (lines 106-108, 111). */
  lemma SingleAdded(base: map<nat, Transport>, T0: seq<Option<nat>>, F0: seq<PollFd>, tr0: map<nat, Transport>, st: nat,
                    ok: bool, s: nat, T: seq<Option<nat>>, F: seq<PollFd>, tr1: map<nat, Transport>,
                    h: nat, fd: int)
    requires Linked(T0, F0, tr0) && tr0 == base[h := Transport(true, fd, fd, None, None)]
    requires forall j :: 0 <= j < |T0| ==> T0[j] != Some(h)
    requires Added(T0, F0, tr0, st, ok, s, T, F, tr1, h, fd, {}, InSide)
    ensures h in tr1 && Created(T0, F0, base, st, T, F, tr1[h := tr1[h].(pfdout := tr1[h].pfdin, connected := ok)], h, fd, fd, ok)
  {
    EmptiesPositive(T0, st);
    var t := tr1[h].(pfdout := tr1[h].pfdin, connected := ok);
    if ok {
      LinkedAdd(T0, F0, tr0, s, h, fd, {}, t);
      Overwrite(tr0, h, tr1[h], t);
    } else {
      LinkedOtherKey(T0, F0, tr0, h, t);
    }
    Overwrite(base, h, Transport(true, fd, fd, None, None), t);
  }

  /** Storing twice under one key keeps the second entry. */
  lemma Overwrite(m: map<nat, Transport>, h: nat, a: Transport, b: Transport)
    ensures m[h := a][h := b] == m[h := b]
  {
  }

  /** A table with no transport in it is linked. */
  lemma EmptyLinked(T: seq<Option<nat>>, F: seq<PollFd>, tr: map<nat, Transport>)
    requires |T| == |F| && forall j :: 0 <= j < |T| ==> T[j].None?
    ensures Linked(T, F, tr)
  {
  }

  /**
   * nppoll: the poller.  Before poll_init runs the tables are absent
   * (`init` is false and they are empty).
   */
  class Poll {
    /** The read end of the wake-up pipe, what poll_init's pipe() call returns. */
    const pipeFd: int
    var init: bool
    var flags: bv8
    var fdnum: nat
    var fdsize: nat
    var trans: array<Option<nat>>
    var fds: array<PollFd>
    /** The Fdtrans objects by handle, and the handle the next malloc returns. */
    var transports: map<nat, Transport>
    var nextHandle: nat
    /** The transports freed so far, in order. */
    var freed: seq<nat>

    /** The tables' shape: slot 0 is the pipe, slots 1 .. fdnum-1 are occupied, every handle names a transport. */
    ghost predicate TableValid()
      reads this, trans, fds
    {
      && trans.Length == fdsize && fds.Length == fdsize
      && (init ==> 1 <= fdnum <= fdsize && trans[0].None?)
      && (!init ==> fdsize == 0)
      && (init ==> forall j :: 1 <= j < fdnum ==> trans[j].Some?)
      && (forall j :: 0 <= j < trans.Length && trans[j].Some? ==> trans[j].value in transports)
      && (forall h :: h in transports ==> h < nextHandle)
    }

    /** TableValid, and every transport's pfdin / pfdout names the slot holding that descriptor. */
    ghost predicate Valid()
      reads this, trans, fds
    {
      TableValid() && Linked(trans[..], fds[..], transports)
    }

    /** The trans table as poll_add sees it: the one poll_init would build when there is none yet. */
    ghost function Slots(): seq<Option<nat>>
      reads this`init, this`trans, trans
    {
      if init then trans[..] else seq(InitialSlots, _ => None)
    }

    ghost function PollFds(): seq<PollFd>
      reads this`init, this`fds, fds
    {
      if init then fds[..] else InitialFds(pipeFd)
    }

    ghost function Start(): nat
      reads this`init, this`fdnum
    {
      if init then fdnum else 1
    }

    ghost function Flags(): bv8
      reads this`init, this`flags
    {
      if init then flags else 0
    }

    /** The static initialiser of nppoll: nothing allocated yet. */
    constructor (pipeFd: int)
      ensures Valid() && !init && this.pipeFd == pipeFd
      ensures transports == map[] && freed == [] && nextHandle == 0 && flags == 0
    {
      this.pipeFd := pipeFd;
      init := false;
      flags := 0;
      fdnum := 0;
      fdsize := 0;
      trans := new Option<nat>[0];
      fds := new PollFd[0];
      transports := map[];
      nextHandle := 0;
      freed := [];
    }

    /**
     * poll_init: 32 empty slots, slot 0 polling the pipe's read end for
     * input and output, fdnum 1 and no flags.  Creating the pipe and the
     * polling thread is left out.
     */
    method PollInit()
      requires !init
      modifies this`init, this`fdnum, this`fdsize, this`trans, this`fds, this`flags
      ensures init && fdnum == 1 && fdsize == InitialSlots && flags == 0
      ensures fresh(trans) && fresh(fds)
      ensures trans[..] == seq(InitialSlots, _ => None) && fds[..] == InitialFds(pipeFd)
    {
      fdnum := 1;
      fdsize := InitialSlots;
      trans := new Option<nat>[InitialSlots](_ => None);
      fds := new PollFd[InitialSlots](_ => PollFd(0, {}));
      fds[0] := PollFd(pipeFd, {PollIn, PollOut});
      flags := 0;
      init := true;
      assert fds[..] == InitialFds(pipeFd);
    }

    /**
     * poll_add: initialise the poller if need be, then place transport h
     * with descriptor fd in the lowest empty slot at or above fdnum, polled
     * for `events` and errors, and point the transport's pfdin or pfdout
     * (`side`) at it.  With no empty slot nothing is placed and the result
     * is false.  Either way the table is marked modified, and the pipe is
     * written only when no notification was pending.
     */
    method PollAdd(h: nat, fd: int, events: set<Event>, side: Side) returns (ret: bool, slot: nat, notified: bool)
      requires TableValid() && h in transports
      modifies this`init, this`fdnum, this`fdsize, this`trans, this`fds, this`flags, this`transports, trans, fds
      ensures TableValid() && init && fdnum == old(Start()) && fdsize == |old(Slots())|
      ensures (trans == old(trans) || fresh(trans)) && (fds == old(fds) || fresh(fds))
      ensures Added(old(Slots()), old(PollFds()), old(transports), old(Start()), ret, slot,
                    trans[..], fds[..], transports, h, fd, events, side)
      ensures flags == TblModified | Notified && (notified <==> old(Flags()) & Notified == 0)
    {
      if !init {
        PollInit();
      }
      assert trans[..] == old(Slots()) && fds[..] == old(PollFds());
      ret, slot := Place(h, fd, events, side);
      notified := flags & Notified == 0;
      flags := TblModified | Notified;
    }

    /** The slot search and placement of poll_add (lines 252-264), on an initialised table. */
    method Place(h: nat, fd: int, events: set<Event>, side: Side) returns (ret: bool, slot: nat)
      requires TableValid() && init && h in transports
      modifies this`transports, trans, fds
      ensures TableValid()
      ensures ret <==> exists j :: fdnum <= j < fdsize && old(trans[..])[j].None?
      ensures ret ==> (&& fdnum <= slot < fdsize && old(trans[..])[slot].None?
                       && (forall j :: fdnum <= j < slot ==> old(trans[..])[j].Some?)
                       && trans[..] == old(trans[..])[slot := Some(h)]
                       && fds[..] == old(fds[..])[slot := PollFd(fd, events + {PollErr, PollHup})]
                       && transports == old(transports)[h := Aim(old(transports)[h], side, slot)])
      ensures !ret ==> trans[..] == old(trans[..]) && fds[..] == old(fds[..]) && transports == old(transports)
    {
      var i := fdnum;
      while i < fdsize && trans[i].Some?
        invariant fdnum <= i <= fdsize
        invariant forall j :: fdnum <= j < i ==> trans[j].Some?
      {
        i := i + 1;
      }
      slot := i;
      ret := false;
      if i < fdsize {
        assert old(trans[..])[i].None?;
        trans[i] := Some(h);
        fds[i] := PollFd(fd, events + {PollErr, PollHup});
        transports := transports[h := Aim(transports[h], side, i)];
        ret := true;
      }
    }

    /**
     * poll_remove: with the poller initialised, mark transport h
     * disconnected if it sits in one of the polled slots 1 .. fdnum-1
     * (slots placed since the last table update are not searched); then
     * mark the table modified and write the pipe unless a notification is
     * pending.  Without a poller nothing happens.
     */
    method PollRemove(h: nat) returns (notified: bool)
      requires Valid()
      modifies this`transports, this`flags
      ensures Valid()
      ensures !old(init) ==> transports == old(transports) && flags == old(flags) && !notified
      ensures old(init) ==> flags == TblModified | Notified && (notified <==> old(flags) & Notified == 0)
      ensures old(init) && (exists j :: 1 <= j < fdnum && trans[j] == Some(h)) ==>
        h in old(transports) && transports == old(transports)[h := old(transports)[h].(connected := false)]
      ensures (!old(init) || forall j :: 1 <= j < fdnum ==> trans[j] != Some(h)) ==> transports == old(transports)
    {
      notified := false;
      if !init {
        return;
      }
      var i := 1;
      ghost var found := false;
      while i < fdnum
        invariant 1 <= i <= fdnum && Valid()
        invariant found <==> exists j :: 1 <= j < i && trans[j] == Some(h)
        invariant found ==> h in old(transports)
        invariant transports == if found then old(transports)[h := old(transports)[h].(connected := false)] else old(transports)
        modifies this`transports
      {
        if trans[i] == Some(h) {
          LinkedSamePointers(trans[..], fds[..], transports, h, transports[h].(connected := false));
          transports := transports[h := transports[h].(connected := false)];
          found := true;
        }
        i := i + 1;
      }
      notified := flags & Notified == 0;
      flags := TblModified | Notified;
    }

    /**
     * The state of poll_update_table at slot i with n slots filled, on the
     * heap: Compact of the current tables, transports and freed list.
     */
    ghost predicate Compacting(T0: seq<Option<nat>>, F0: seq<PollFd>, tr0: map<nat, Transport>, fr0: seq<nat>,
                               base: nat, i: nat, n: nat)
      reads this`trans, this`fds, this`transports, this`freed, trans, fds
    {
      |fr0| == base && Compact(T0, F0, tr0, fr0, i, n, trans[..], fds[..], transports, freed)
    }

    /** After the loop of poll_update_table, with fdnum set to n, the poller is valid and laid out as promised. */
    lemma Finish(T0: seq<Option<nat>>, F0: seq<PollFd>, tr0: map<nat, Transport>, fr0: seq<nat>, base: nat)
      requires Compacting(T0, F0, tr0, fr0, base, fdsize, fdnum) && |T0| == fdsize && init && T0[0].None?
      requires forall h :: h in tr0 ==> h < nextHandle
      ensures Valid() && Compacted(T0, F0, tr0, fr0, fdnum, trans[..], fds[..], transports, freed)
    {
      CompactDone(T0, F0, tr0, fr0, fdnum, trans[..], fds[..], transports, freed);
      assert forall h :: h in transports ==> h in tr0;
    }

    /**
     * One turn of the loop of poll_update_table (lines 303-326): an empty
     * slot is skipped; a disconnected transport is freed (once) and its
     * slot emptied; a connected one moves down to slot n, its pointer
     * following it, and n advances.
     */
    method CompactSlot(i: nat, n: nat, base: nat, ghost T0: seq<Option<nat>>, ghost F0: seq<PollFd>,
                       ghost tr0: map<nat, Transport>, ghost fr0: seq<nat>) returns (n': nat)
      requires Compacting(T0, F0, tr0, fr0, base, i, n) && i < trans.Length
      modifies this`transports, this`freed, trans, fds
      ensures Compacting(T0, F0, tr0, fr0, base, i + 1, n')
    {
      n' := n;
      var slot := trans[i];
      if slot.None? {
        CompactSkip(T0, F0, tr0, fr0, i, n, trans[..], fds[..], transports, freed);
      } else if !transports[slot.value].connected {
        FreeSlot(i, n, base, T0, F0, tr0, fr0);
      } else {
        if i != n {
          MoveSlot(i, n, base, T0, F0, tr0, fr0);
        } else {
          CompactKeep(T0, F0, tr0, fr0, i, n, trans[..], fds[..], transports, freed);
        }
        n' := n + 1;
      }
    }

    /** Lines 307-312: free a disconnected transport, unless an earlier slot freed it, and empty its slot. */
    method FreeSlot(i: nat, n: nat, base: nat, ghost T0: seq<Option<nat>>, ghost F0: seq<PollFd>,
                    ghost tr0: map<nat, Transport>, ghost fr0: seq<nat>)
      requires Compacting(T0, F0, tr0, fr0, base, i, n) && i < trans.Length
      requires trans[i].Some? && !transports[trans[i].value].connected
      modifies this`freed, trans
      ensures Compacting(T0, F0, tr0, fr0, base, i + 1, n)
    {
      ghost var T, F, tr, fr := trans[..], fds[..], transports, freed;
      CompactFree(T0, F0, tr0, fr0, i, n, T, F, tr, fr);
      var h := trans[i].value;
      // close(fdin), and close(fdout) when it differs, are left out
      if h !in freed[base..] {
        freed := freed + [h];
      }
      trans[i] := None;
      assert trans[..] == T[i := None] && fds[..] == F;
      assert Compact(T0, F0, tr0, fr0, i + 1, n, trans[..], fds[..], transports, freed);
    }

    /** Lines 314-323: move a connected transport's slot i down to the free slot n and re-aim its pointer. */
    method MoveSlot(i: nat, n: nat, base: nat, ghost T0: seq<Option<nat>>, ghost F0: seq<PollFd>,
                    ghost tr0: map<nat, Transport>, ghost fr0: seq<nat>)
      requires Compacting(T0, F0, tr0, fr0, base, i, n) && i < trans.Length && i != n
      requires trans[i].Some? && transports[trans[i].value].connected
      modifies this`transports, trans, fds
      ensures Compacting(T0, F0, tr0, fr0, base, i + 1, n + 1)
    {
      ghost var T, F, tr, fr := trans[..], fds[..], transports, freed;
      CompactKeep(T0, F0, tr0, fr0, i, n, T, F, tr, fr);
      var h := trans[i].value;
      var fd := fds[i].fd;
      trans[n] := trans[i];
      fds[n] := fds[i];
      transports := Repoint(transports, h, fd, n);
      trans[i] := None;
      assert trans[..] == Shift(T, i, n) && fds[..] == ShiftFds(F, i, n);
    }

    /**
     * The loop of poll_update_table (lines 302-328): the connected
     * transports' slots move down, in order, to 1 .. fdnum-1; the slots of
     * disconnected ones are emptied and each such transport is freed once.
     */
    method Compaction()
      requires Valid() && init
      modifies this`transports, this`freed, this`fdnum, trans, fds
      ensures Valid() && init
      ensures Compacted(old(trans[..]), old(fds[..]), old(transports), old(freed), fdnum, trans[..], fds[..], transports, freed)
    {
      ghost var T0, F0, tr0, fr0 := trans[..], fds[..], transports, freed;
      var base := |freed|;
      LayoutStart(T0, F0, tr0);
      var n := CompactLoop(base, T0, F0, tr0, fr0);
      fdnum := n;
      Finish(T0, F0, tr0, fr0, base);
    }

    /** The for loop at lines 302-327, from slot 1 with one slot filled. */
    method CompactLoop(base: nat, ghost T0: seq<Option<nat>>, ghost F0: seq<PollFd>,
                       ghost tr0: map<nat, Transport>, ghost fr0: seq<nat>) returns (n: nat)
      requires Compacting(T0, F0, tr0, fr0, base, 1, 1) && trans.Length == fdsize
      modifies this`transports, this`freed, trans, fds
      ensures Compacting(T0, F0, tr0, fr0, base, fdsize, n)
    {
      var i := 1;
      n := 1;
      while i < fdsize
        invariant i <= fdsize == trans.Length
        invariant Compacting(T0, F0, tr0, fr0, base, i, n)
        decreases fdsize - i
      {
        n := CompactSlot(i, n, base, T0, F0, tr0, fr0);
        i := i + 1;
      }
    }

    /**
     * poll_update_table: compact the table in place, keeping the connected
     * transports in their order and freeing the disconnected ones, then
     * set fdnum past the last kept slot; when fewer than 32 free slots
     * remain and both reallocations succeed (`grown`), add 32 empty slots.
     */
    method UpdateTable(grown: bool)
      requires Valid() && init
      modifies this`transports, this`freed, this`fdnum, this`fdsize, this`trans, this`fds, trans, fds
      ensures Valid() && init
      ensures fdsize == (if old(fdsize) - fdnum < Growth && grown then old(fdsize) + Growth else old(fdsize))
      ensures Compacted(old(trans[..]), old(fds[..]), old(transports), old(freed), fdnum, trans[..], fds[..], transports, freed)
    {
      Compaction();
      if fdsize - fdnum < Growth && grown {
        ghost var T, F := trans[..], fds[..];
        Grow();
        GrowCompacted(old(trans[..]), old(fds[..]), old(transports), old(freed), fdnum, T, F, transports, freed,
                      trans[..], fds[..]);
      }
    }

    /**
     * The growth at lines 330-345: both tables reallocated 32 slots
     * larger, the new trans slots emptied, and every transport's pointers
     * re-aimed at its slots in the moved pollfd table.  Slots are indices
     * here, so the re-aiming leaves the pointers as they were.
     */
    method Grow()
      requires Valid() && init
      modifies this`trans, this`fds, this`fdsize, this`transports
      ensures Valid() && init && fdsize == old(fdsize) + Growth
      ensures trans[..] == old(trans[..]) + seq(Growth, _ => None)
      ensures fds.Length == fdsize && fds[..old(fdsize)] == old(fds[..])
      ensures transports == old(transports)
    {
      Realloc();
      RepointAll();
    }

    /** Lines 331-339: both tables 32 slots larger, the old contents kept and the new trans slots emptied. */
    method Realloc()
      requires Valid() && init
      modifies this`trans, this`fds, this`fdsize
      ensures Valid() && init && fdsize == old(fdsize) + Growth
      ensures trans[..] == old(trans[..]) + seq(Growth, _ => None)
      ensures fds.Length == fdsize && fds[..old(fdsize)] == old(fds[..])
    {
      var tfdt, tfds := Enlarged();
      LinkedGrow(trans[..], fds[..], transports, tfdt[..], tfds[..]);
      assert forall j :: 0 <= j < tfdt.Length ==> tfdt[j] == if j < fdsize then trans[j] else None;
      fdsize := fdsize + Growth;
      fds := tfds;
      trans := tfdt;
    }

    /** The two reallocated tables: the old contents, then 32 slots, the new trans slots empty. */
    method Enlarged() returns (tfdt: array<Option<nat>>, tfds: array<PollFd>)
      requires TableValid()
      ensures fresh(tfdt) && fresh(tfds)
      ensures tfdt[..] == trans[..] + seq(Growth, _ => None)
      ensures tfds.Length == fdsize + Growth && tfds[..fdsize] == fds[..]
    {
      var size := fdsize;
      tfds := new PollFd[size + Growth];
      tfdt := new Option<nat>[size + Growth];
      forall j | 0 <= j < size {
        tfds[j] := fds[j];
      }
      forall j | 0 <= j < size {
        tfdt[j] := trans[j];
      }
      var i := 0;
      while i < Growth
        invariant 0 <= i <= Growth
        invariant tfdt[..size] == trans[..]
        invariant forall j :: size <= j < size + i ==> tfdt[j].None?
        modifies tfdt
      {
        tfdt[size + i] := None;
        i := i + 1;
      }
      assert tfds[..size] == fds[..];
    }

    /**
     * Lines 341-345: every slot in use re-aims its transport's pointer at
     * itself.  The table is linked, so each pointer already names its slot.
     */
    method RepointAll()
      requires Valid() && init
      modifies this`transports
      ensures Valid() && transports == old(transports)
    {
      var i := 1;
      while i < fdnum
        invariant 1 <= i <= fdnum && Valid()
        invariant transports == old(transports)
      {
        var h := trans[i].value;
        if fds[i].fd == transports[h].fdin {
          assert transports[h].pfdin == Some(i);
          SameEntry(transports, h, transports[h].(pfdin := Some(i)));
          transports := transports[h := transports[h].(pfdin := Some(i))];
        }
        if fds[i].fd == transports[h].fdout {
          assert transports[h].pfdout == Some(i);
          SameEntry(transports, h, transports[h].(pfdout := Some(i)));
          transports := transports[h := transports[h].(pfdout := Some(i))];
        }
        i := i + 1;
      }
    }

    /**
     * np_fdtrans_create: a new Fdtrans, connected, with the two
     * descriptors; each distinct descriptor is added to the poller with no
     * events, and the transport stays connected only if every add found a
     * slot.  With fdin == fdout the one slot serves both pointers.
     */
    method CreateTransport(fdin: int, fdout: int) returns (h: nat, connected: bool)
      requires Valid()
      modifies this`init, this`fdnum, this`fdsize, this`trans, this`fds, this`flags, this`transports, this`nextHandle, trans, fds
      ensures Valid() && init && fdnum == old(Start()) && fdsize == |old(Slots())|
      ensures h == old(nextHandle) && nextHandle == h + 1 && h !in old(transports)
      ensures Created(old(Slots()), old(PollFds()), old(transports), old(Start()), trans[..], fds[..], transports,
                      h, fdin, fdout, connected)
      ensures flags == TblModified | Notified
    {
      h := nextHandle;
      nextHandle := nextHandle + 1;
      if !init {
        EmptyLinked(Slots(), PollFds(), transports);
      }
      assert forall j :: 0 <= j < |Slots()| ==> Slots()[j] != Some(h);
      LinkedOtherKey(Slots(), PollFds(), transports, h, Transport(true, fdin, fdout, None, None));
      ghost var base := transports;
      transports := transports[h := Transport(true, fdin, fdout, None, None)];
      if fdin != fdout {
        connected := AddPair(h, fdin, fdout, base);
      } else {
        connected := AddSingle(h, fdin, base);
      }
    }

    /** A new transport h, in no slot yet, before its descriptors are added to the transports `base`. */
    ghost predicate Unplaced(h: nat, fdin: int, fdout: int, base: map<nat, Transport>)
      reads this, trans, fds
    {
      && TableValid() && Linked(Slots(), PollFds(), transports)
      && transports == base[h := Transport(true, fdin, fdout, None, None)]
      && forall j :: 0 <= j < |Slots()| ==> Slots()[j] != Some(h)
    }

    /** Lines 102-104 and 111: poll_add for fdin, then for fdout; connected only if both found a slot. */
    method AddPair(h: nat, fdin: int, fdout: int, ghost base: map<nat, Transport>) returns (connected: bool)
      requires Unplaced(h, fdin, fdout, base) && fdin != fdout
      modifies this`init, this`fdnum, this`fdsize, this`trans, this`fds, this`flags, this`transports, trans, fds
      ensures Valid() && init && fdnum == old(Start()) && fdsize == |old(Slots())|
      ensures Created(old(Slots()), old(PollFds()), base, old(Start()), trans[..], fds[..], transports,
                      h, fdin, fdout, connected)
      ensures flags == TblModified | Notified
    {
      ghost var T0, F0, tr0, st := Slots(), PollFds(), transports, Start();
      var ok1, s1, n1 := PollAdd(h, fdin, {}, InSide);
      ghost var T1, F1, tr1 := trans[..], fds[..], transports;
      var ok2, s2, n2 := PollAdd(h, fdout, {}, OutSide);
      PairAdded(base, T0, F0, tr0, st, ok1, s1, T1, F1, tr1, ok2, s2, trans[..], fds[..], transports, h, fdin, fdout);
      connected := ok1 && ok2;
      transports := transports[h := transports[h].(connected := connected)];
    }

    /** Lines 106-108 and 111: one poll_add for the shared descriptor; pfdout is set to whatever pfdin became. */
    method AddSingle(h: nat, fd: int, ghost base: map<nat, Transport>) returns (connected: bool)
      requires Unplaced(h, fd, fd, base)
      modifies this`init, this`fdnum, this`fdsize, this`trans, this`fds, this`flags, this`transports, trans, fds
      ensures Valid() && init && fdnum == old(Start()) && fdsize == |old(Slots())|
      ensures Created(old(Slots()), old(PollFds()), base, old(Start()), trans[..], fds[..], transports,
                      h, fd, fd, connected)
      ensures flags == TblModified | Notified
    {
      ghost var T0, F0, tr0, st := Slots(), PollFds(), transports, Start();
      transports := transports[h := transports[h].(pfdout := None)];
      assert transports == tr0;
      var ok, s, n := PollAdd(h, fd, {}, InSide);
      SingleAdded(base, T0, F0, tr0, st, ok, s, trans[..], fds[..], transports, h, fd);
      connected := ok;
      transports := transports[h := transports[h].(pfdout := transports[h].pfdin, connected := connected)];
    }

    /**
     * np_fdtrans_settbuf: with a transmit buffer to send, the output slot
     * is polled for POLLOUT and the poller woken unless a notification is
     * already pending; without one, POLLOUT is cleared there.
     */
    method SetTbuf(h: nat, hasBuf: bool) returns (notified: bool)
      requires Valid() && h in transports && transports[h].pfdout.Some? && transports[h].pfdout.value < fdsize
      modifies this`flags, fds
      ensures Valid()
      ensures fds[..] == WithEvents(old(fds[..]), transports[h].pfdout.value, PollOut, hasBuf)
      ensures hasBuf ==> flags == old(flags) | Notified && (notified <==> old(flags) & Notified == 0)
      ensures !hasBuf ==> flags == old(flags) && !notified
    {
      var p := transports[h].pfdout.value;
      notified := false;
      if hasBuf {
        SetEvents(p, PollOut, true);
        notified := Notify();
      } else {
        SetEvents(p, PollOut, false);
      }
    }

    /**
     * np_fdtrans_setrbuf, corrected: with a receive buffer to fill, the
     * input slot is polled for POLLIN and the poller woken unless a
     * notification is pending; without one, POLLIN is cleared on the same
     * input slot (the source clears it on the output slot, see
     * RxEventsAsWritten).
     */
    method SetRbuf(h: nat, hasBuf: bool) returns (notified: bool)
      requires Valid() && h in transports && transports[h].pfdin.Some? && transports[h].pfdin.value < fdsize
      modifies this`flags, fds
      ensures Valid()
      ensures fds[..] == WithEvents(old(fds[..]), transports[h].pfdin.value, PollIn, hasBuf)
      ensures hasBuf ==> flags == old(flags) | Notified && (notified <==> old(flags) & Notified == 0)
      ensures !hasBuf ==> flags == old(flags) && !notified
    {
      var p := transports[h].pfdin.value;
      notified := false;
      if hasBuf {
        SetEvents(p, PollIn, true);
        notified := Notify();
      } else {
        SetEvents(p, PollIn, false);
      }
    }

    /** `fds[p].events |= ev` (on) or `fds[p].events &= ~ev` (off). */
    method SetEvents(p: nat, ev: Event, on: bool)
      requires Valid() && p < fdsize
      modifies fds
      ensures Valid() && fds[..] == WithEvents(old(fds[..]), p, ev, on)
    {
      if on {
        LinkedEvents(trans[..], fds[..], transports, p, fds[p].events + {ev});
        fds[p] := fds[p].(events := fds[p].events + {ev});
      } else {
        LinkedEvents(trans[..], fds[..], transports, p, fds[p].events - {ev});
        fds[p] := fds[p].(events := fds[p].events - {ev});
      }
    }

    /** Set the Notified flag; the poller is woken (poll_notify) only if it was clear. */
    method Notify() returns (notified: bool)
      modifies this`flags
      ensures flags == old(flags) | Notified && (notified <==> old(flags) & Notified == 0)
    {
      notified := flags & Notified == 0;
      flags := flags | Notified;
    }
  }
}
