/**
 * The console file server (devdirtab/consolefs.c): a four-row table whose
 * files render the clock, the millisecond clock and the console.  The two
 * clocks are parameters (getclock and msec read the system clock); reading
 * the console from standard input is left out.
 */
module ConsoleFs {
  import opened Npfs
  import opened Casafs
  import opened MyUtils

  const Itopdir: bv8 := 0
  const Icons: bv8 := 1
  const Itime: bv8 := 2
  const Imsec: bv8 := 3
  const Nobody: bv8 := 0xff

  const U64Limit := 0x1_0000_0000_0000_0000

  const DefaultFileOps := FileOps(None, None, None)
  const ConsFileOps := FileOps(Some(ConsRead), Some(ConsWrite), None)
  const TimeFileOps := FileOps(Some(ReadOp.TimeRead), None, None)
  const MsecFileOps := FileOps(Some(ReadOp.MsecRead), None, None)

  const ConsoleTab: seq<Dirtab> := [
    Dirtab("dev", Itopdir, Qtdir, Nobody, DefaultFileOps),
    Dirtab("cons", Icons, Qtfile, Itopdir, ConsFileOps),
    Dirtab("time", Itime, Qtfile, Itopdir, TimeFileOps),
    Dirtab("msec", Imsec, Qtfile, Itopdir, MsecFileOps)
  ]

  lemma ConsoleTabIsOneLevel()
    ensures OneLevelTable(ConsoleTab, Nobody)
  {
  }

  /** dt2qid: the qid of a row is its bare row id; the handle is ignored. */
  function Dt2Qid(dt: Dirtab): (q: Qid)
    ensures q.qtype == dt.qidtype && q.version == 0
    ensures q.path & 0xff == dt.qidpath as bv64 && q.path >> 8 == 0
  {
    Qid(dt.qidtype, 0, dt.qidpath as bv64)
  }

  /** dt2fid: set the fid's qid and name.  Unlike the /net server it leaves `dt` alone. */
  method Dt2Fid(dt: Dirtab, f: Fid, filename: string)
    modifies f
    ensures f.qid == Dt2Qid(dt) && f.filename == filename
    ensures f.dt == old(f.dt) && f.omode == old(f.omode) && f.offset == old(f.offset)
    ensures f.parenttab == old(f.parenttab) && f.parenttabsize == old(f.parenttabsize)
  {
    f.qid := Dt2Qid(dt);
    f.filename := filename;
  }

  function Min(a: nat, b: nat): nat
  {
    if a < b then a else b
  }

  /** `%llu\n` of a 64-bit clock value; at most 21 characters, so KNAMELEN never truncates it. */
  function ClockString(v: nat): string
    requires v < U64Limit
  {
    DecimalString(v) + "\n"
  }

  /**
   * The part of a file of contents b that a read of `count` bytes at
   * `offset` should return: nothing past the end, otherwise up to `count`
   * bytes starting at `offset`.
   */
  function Window(b: string, offset: nat, count: nat): (r: string)
    ensures |r| == if offset > |b| then 0 else Min(count, |b| - offset)
    ensures offset <= |b| ==> r == b[offset..offset + |r|]
  {
    if offset > |b| then [] else b[offset..offset + Min(count, |b| - offset)]
  }

  /** A read from offset 0 of at least the file's length returns the whole file. */
  lemma WholeWindow(b: string, count: nat)
    requires count >= |b|
    ensures Window(b, 0, count) == b
  {
  }

  /** Two reads, the second starting where the first ended, return what one larger read returns. */
  lemma {:induction false} WindowsConcatenate(b: string, offset: nat, c1: nat, c2: nat)
    ensures Window(b, offset, c1) + Window(b, offset + |Window(b, offset, c1)|, c2) == Window(b, offset, c1 + c2)
  {
    if offset <= |b| {
      var w1 := Window(b, offset, c1);
      var e := offset + |w1|;
      assert e <= |b|;
      var w2 := Window(b, e, c2);
      assert w1 + w2 == b[offset..e + |w2|];
    }
  }

  /**
   * What time_read and msec_read return as written: the length of the
   * window at `offset`, but copied from the start of the string
   * (`strncpy(ret->data, b, count)`) rather than from `b + offset`.
   */
  function PrefixWindow(b: string, offset: nat, count: nat): (r: string)
    ensures |r| == |Window(b, offset, count)|
    ensures r == Window(b, 0, |r|)
  {
    b[..|Window(b, offset, count)|]
  }

  /** The clipping and copy of time_read / msec_read, as written. */
  method ReadRendered(b: string, offset: nat, count: nat) returns (data: string, n: nat)
    ensures offset > |b| ==> n == 0
    ensures offset <= |b| ==> n == Min(count, |b| - offset)
    ensures data == PrefixWindow(b, offset, count) && n == |data|
  {
    n := 0;
    data := [];
    if offset > |b| {
      return;
    }
    var c := count;
    if |b| - offset < c {
      c := |b| - offset;
    }
    data := b[..c];
    n := c;
  }

  /** The clipping and copy with the copy taken from `b + offset`, as evidently intended. */
  method ReadRenderedAt(b: string, offset: nat, count: nat) returns (data: string, n: nat)
    ensures data == Window(b, offset, count) && n == |data|
  {
    n := 0;
    data := [];
    if offset > |b| {
      return;
    }
    var c := count;
    if |b| - offset < c {
      c := |b| - offset;
    }
    data := b[offset..offset + c];
    n := c;
  }

  /**
   * A concrete case where the two differ: with the clock at 42 the file is
   * "42\n", and a read of 10 bytes at offset 1 returns "42" instead of "2\n".
   */
  lemma PrefixWindowIgnoresOffset()
    ensures ClockString(42) == "42\n"
    ensures PrefixWindow(ClockString(42), 1, 10) == "42"
    ensures Window(ClockString(42), 1, 10) == "2\n"
  {
    assert DecimalString(42) == DecimalString(4) + [DigitChar(2)];
  }

  /** At offset 0 the copy as written is the intended one. */
  lemma PrefixWindowAtZero(b: string, count: nat)
    ensures PrefixWindow(b, 0, count) == Window(b, 0, count)
  {
  }

  /**
   * time_read: a read of the rendered clock; `clock` is what getclock()
   * returned.  The copy starts at `offset` (see ReadRendered for the copy
   * as written).
   */
  method TimeRead(clock: nat, offset: nat, count: nat) returns (data: string, n: nat)
    requires clock < U64Limit
    ensures data == Window(ClockString(clock), offset, count) && n == |data|
  {
    data, n := ReadRenderedAt(ClockString(clock), offset, count);
  }

  /** msec_read: the same clipping over the millisecond clock `ms`. */
  method MsecRead(ms: nat, offset: nat, count: nat) returns (data: string, n: nat)
    requires ms < U64Limit
    ensures data == Window(ClockString(ms), offset, count) && n == |data|
  {
    data, n := ReadRenderedAt(ClockString(ms), offset, count);
  }

  /**
   * cons_write: emit the `count` bytes of the request to standard output
   * one by one (`out`) and report `count`.
   */
  method ConsoleWrite(data: seq<bv8>, count: nat) returns (out: seq<bv8>, n: nat)
    requires count <= |data|
    ensures out == data[..count] && n == count
  {
    out := [];
    n := 0;
    var left := count;
    while left > 0
      invariant n + left == count
      invariant out == data[..n]
    {
      out := out + [data[n]];
      n := n + 1;
      left := left - 1;
    }
  }
}
