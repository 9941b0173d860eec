# A Dafny model of the npfs dirtab servers

This project models the core of npfs-dirtab, a 9P2000 file-server kit written in C, and proves properties of that model.

The kit builds file servers from static directory tables ("dirtabs"). The generic engine resolves walks, opens, reads and stats against those tables. It also resolves them against a registry of grafts ("transfer points"), which splice a further table under a directory at run time.

The modelled core:

- **`Dirtab` (devdirtab/dirtab.c).** The name resolver `findNextDirChild` runs one cursor over the static table and then over the graft list. Around it sit the protocol handlers: attach, clone, walk, open, stat, read of a directory, wstat and write.
- **`TransferPoints` (devdirtab/TransferPoint.c).** The graft registry is a list whose head is index 0. It has prepend on create, unlink of the first matching pair on release, and the registry lock as a flag.
- **`NetQid` and `NetFs` (devdirtab/netfs.c).**
  - `NetQid` holds the /net server's qid encoding: the row id sits in bits 0-7 and the pool index in bits 8-15. It also holds the server's two tables and its `dt2qid`/`dt2fid`.
  - `NetFs` holds the clone protocol and the ctl, data and listen files.
- **`NetCtl` (devdirtab/netfs.c).** The parser of the ctl commands.
- **`MyConn` (devdirtab/myconn.c).** The connection pool: a fixed array of slots whose status moves between FREE, DISCONNECTED, CONNECTED, ASSIGNED and LISTEN.
- **`MyUtils` (devdirtab/myutils.c).** The decimal parser, the tokenizer and field counter, hex digits, and qid helpers.
- **`Casafs` (devdirtab/casafs.h).** The `Dirtab` row, and the per-client `Fid` cursor as a class.
- **`ConsoleFs` (devdirtab/consolefs.c).** The console server's table, and the clipping of its clock files.
- **`NpConn` (libnpfs/conn.c).** The 9P2000 framing loop over the receive buffer, the reply queue, and the free list of receive packets.
- **`FdTrans` (libnpfs/fdtrans.c).** The poll table: slot allocation, stable compaction in place, growth, and the event bits of the transmit and receive buffers.
- **`Npfs` (include/npfs.h).** The shared types: qids, the qid type bits, the mode bits and error names.

How the C becomes Dafny:

- Code that changes state in place becomes classes with `modifies` frames: the fid, the pool, the registry, the connection and the poller.
- The poll tables are `array`s, compacted in place.
- Pure selection and bit arithmetic become functions. Qid paths are `bv64` and row ids are `bv8`.
- Every method is tied by its `ensures` to a function of the old state. Lemmas then prove what the C promises about that function: enumeration order, round trips, first-fit choice, byte conservation in the framing loop, and order-preserving compaction.
- Where the C is wrong (see "## Findings"), the model keeps the code as written beside a corrected version, and the rest of the model uses the corrected one. Rows marked "corrected:" below describe that corrected behaviour.

Parameters stand in for what the model cannot see:

- **Socket and system calls.** The outcomes of `socket`, `connect`, `bind`, `listen`, `accept`, `read`, `write` and `realloc`.
- **Clocks.** The clock readings.
- **Unseen library code.** `np_deserialize` and `np_serialize_stat`, which are not part of this model. Each becomes a function parameter with the bound its caller relies on.

## Model

| member | source | states |
|---|---|---|
| Casafs.Fid.Alloc | devdirtab/myutils.c:33-42 | a fresh fid has the zero qid, open mode -1 and offset 0, and its size in scope fits its table |
| TransferPoints.FirstJoining | devdirtab/TransferPoint.c:68-85 | the position found joins the (start, destination) pair and no earlier record does; None exactly when no record joins it |
| TransferPoints.RemoveAt | devdirtab/TransferPoint.c:69-79 | unlinking position k keeps the records before k and shifts the later ones down by one |
| TransferPoints.ReleaseOfUniquePairIsFinal | devdirtab/TransferPoint.c:57-89 | when only one record joins a pair, after it is unlinked no record joins the pair any more |
| TransferPoints.Registry.constructor | devdirtab/TransferPoint.c:14-15 | the globals start as an empty list with the lock free |
| TransferPoints.Registry.Init | devdirtab/TransferPoint.c:17-21 | init_TP empties the list and leaves the lock free |
| TransferPoints.Registry.Head | devdirtab/TransferPoint.c:97-100 | the initial transfer point is the head, and there is none exactly when the list is empty |
| TransferPoints.Registry.CreateUnlinked | devdirtab/TransferPoint.c:28-36 | the new record is prepended and returned, and the lock is untouched |
| TransferPoints.Registry.CreateConfigured | devdirtab/TransferPoint.c:38-55 | the returned record holds the six arguments in their fields, it is prepended, and the lock is free afterwards |
| TransferPoints.Registry.Release | devdirtab/TransferPoint.c:57-89 | corrected: with no joining record the result is -1 and the list is unchanged; otherwise the first joining record is unlinked and the result is 1; the lock is free afterwards on every path |
| TransferPoints.Registry.ReleaseAsWritten | devdirtab/TransferPoint.c:57-89 | as written: with no joining record the result is -1 and the list and lock are unchanged; otherwise the first joining record is unlinked, the result is 1, and the lock stays held exactly when that record was behind the head |
| TransferPoints.LockLeftHeld | devdirtab/TransferPoint.c:77-81 | as written, after two creates the release of the older graft, which sits behind the head, leaves the registry lock held |
| MyUtils.DecimalString | devdirtab/myconn.c:60 | the `%d` rendering of a slot index (also at netfs.c:262 and 316, and the `%llu` clock readings at consolefs.c:126 and 148) is a non-empty string of digits |
| MyUtils.DecimalRoundTrip | devdirtab/myutils.c:91-105 | reading back the decimal rendering of n gives n |
| MyUtils.MyAtoi | devdirtab/myutils.c:91-105 | the result is the value of the first n characters, accumulated in a 32-bit `int` and so wrapped, when they are all digits, and -1 otherwise; a non-negative result means they were all digits, and a value below 2^31 comes back unchanged |
| MyUtils.AtoiOfDecimal | devdirtab/myutils.c:91-105 | myatoi accepts the decimal rendering of a number below 2^31, with its own length, and returns that number |
| MyUtils.Int32 | devdirtab/myutils.c:97 | the wrapped value lies in the range of a 32-bit `int`, and a value already in 0 .. 2^31-1 is unchanged |
| MyUtils.Int32Step | devdirtab/myutils.c:97 | wrapping the accumulator before each digit is appended gives the wrap of the whole decimal value |
| MyUtils.Int32Shift | devdirtab/myutils.c:97 | the wrap depends only on the value modulo 2^32 |
| MyUtils.AtoiWrapsLargePort | devdirtab/myutils.c:91-105 | the all-digit port "3000000000" reads as 3000000000 - 2^32, a negative number, which createConnection (myconn.c:97-101) turns into EINVAL |
| MyUtils.FieldsAcrossSeparator | devdirtab/myutils.c:107-127 | the field count is additive across a separator |
| MyUtils.NCmdField | devdirtab/myutils.c:107-127 | a NULL string gives 1; otherwise the result is one more than the number of fields in the first n characters |
| MyUtils.LeadingSeps | devdirtab/myutils.c:140-144 | the leading run covers only separators, stays within n, and ends at a non-separator or at n |
| MyUtils.SepsEnd | devdirtab/myutils.c:140-144 | the run of separators from i ends within n, at a non-separator or at n |
| MyUtils.TokenEnd | devdirtab/myutils.c:146-151 | the run of non-separators from i ends within n, at a separator or at n |
| MyUtils.StringOpt | devdirtab/myutils.c:134-154 | the count never exceeds n |
| MyUtils.GetStringOpt | devdirtab/myutils.c:134-154 | the copied token and the returned count are those of StringOpt |
| MyUtils.StringOptToken | devdirtab/myutils.c:134-154 | the token is the characters of the string from the end of the leading separators to the count; the count is the leading separators plus the token's length; the token holds no separator and is ended by a separator or by the n-th character |
| MyUtils.HexToChar | devdirtab/myutils.c:61-72 | a digit comes back exactly for 0..15, and it is 0-9 or A-F |
| MyUtils.CharToHex | devdirtab/myutils.c:74-88 | a value comes back exactly for 0-9 and A-F, and it lies in 0..15 |
| MyUtils.HexRoundTrip | devdirtab/myutils.c:61-88 | char2hex undoes hex2char on 0..15 |
| MyUtils.CharRoundTrip | devdirtab/myutils.c:61-88 | hex2char undoes char2hex on 0-9 and A-F |
| MyUtils.IsDirQid | devdirtab/myutils.c:54-59 | the result is non-zero exactly for a directory qid, and it is 0 or the Qtdir bit |
| MyUtils.QidCopy | devdirtab/myutils.c:12-17 | the copy agrees with the original in type, version and path |
| MyConn.FirstFree | devdirtab/myconn.c:56-57 | the slot found is FREE, lies in from..MAXCONN-1 and no earlier slot from `from` on is FREE; None exactly when no slot there is FREE |
| MyConn.GetConnPtr | devdirtab/myconn.c:70-75 | every index below MAXCONN yields its own slot, whatever its status |
| MyConn.ConnPool.constructor | devdirtab/myconn.c:29 | the static array starts with every slot zero, hence FREE, with index 0 |
| MyConn.ConnPool.Init | devdirtab/myconn.c:31-44 | slots 1..MAXCONN-1 become FREE with nothing else changed, and slot 0 is untouched |
| MyConn.ConnPool.FindFreeConn | devdirtab/myconn.c:50-67 | the lowest FREE slot from 1 is claimed: its index is its position, its status DISCONNECTED and its directory name the decimal index; no other slot changes, and with no FREE slot nothing changes |
| MyConn.ConnPool.CreateConnection | devdirtab/myconn.c:78-115 | success exactly when the slot is DISCONNECTED, the socket opened, the whole port string is a number and connect succeeded; then the slot holds the socket and is CONNECTED; a wrong status or a bad port gives EINVAL, the socket failures a system error, and a failure changes nothing |
| MyConn.ConnPool.GetDataFromConnection | devdirtab/myconn.c:117-134 | end of stream or an error gives -1 and marks the slot DISCONNECTED; otherwise the byte count is returned and nothing changes |
| MyConn.ConnPool.SendDataToConnection | devdirtab/myconn.c:136-151 | a write error gives -1, otherwise the byte count write reported |
| MyConn.ConnPool.CloseConnection | devdirtab/myconn.c:153-164 | a CONNECTED slot becomes DISCONNECTED and the result is 1; any other slot gives -1 and is unchanged |
| MyConn.ConnPool.AssignPort | devdirtab/myconn.c:166-195 | the slot keeps the new socket; a socket failure is an error and leaves the status; otherwise the slot is ASSIGNED and the result 1, whatever bind did |
| MyConn.ConnPool.ListenOnConnection | devdirtab/myconn.c:197-227 | the slot is marked LISTEN; a listen failure is an error and leaves it so; otherwise the lowest free slot is claimed, holds the accepted socket and is CONNECTED, the listener goes back to ASSIGNED, and the new slot's index is returned |
| MyConn.ConnPool.ReleaseConnection | devdirtab/myconn.c:229-243 | a DISCONNECTED slot becomes FREE and its index is returned; any other slot gives -1 and is unchanged |
| ConsoleFs.ConsoleTabIsOneLevel | devdirtab/consolefs.c:50-56 | the console table is one level: a root directory whose parent is nobody, files under it, distinct row ids |
| ConsoleFs.Dt2Qid | devdirtab/consolefs.c:61-69 | the qid has the row's type, version 0 and the bare row id as its path |
| ConsoleFs.Dt2Fid | devdirtab/consolefs.c:72-76 | the fid gets the row's qid and the name; its row, mode, offset and table in scope stay as they were |
| ConsoleFs.Window | devdirtab/consolefs.c:127-132 | the intended read window: empty past the end, otherwise the bytes from the offset, at most count of them |
| ConsoleFs.WholeWindow | devdirtab/consolefs.c:127-132 | a read from offset 0 of at least the file's length returns the whole file |
| ConsoleFs.WindowsConcatenate | devdirtab/consolefs.c:127-132 | a read followed by a read from where it ended returns what one read of the combined count returns |
| ConsoleFs.PrefixWindow | devdirtab/consolefs.c:127-132 | the copy as written has the intended window's length but is taken from the start of the file |
| ConsoleFs.ReadRendered | devdirtab/consolefs.c:125-135 | as written: nothing past the end, otherwise the count clipped to the bytes after the offset, copied from the start of the string |
| ConsoleFs.ReadRenderedAt | devdirtab/consolefs.c:125-135 | corrected: the same count, copied from the offset, so the data is the intended window |
| ConsoleFs.PrefixWindowIgnoresOffset | devdirtab/consolefs.c:131 | with the clock at 42, a 10-byte read at offset 1 returns "42" as written and "2\n" as intended |
| ConsoleFs.PrefixWindowAtZero | devdirtab/consolefs.c:131 | at offset 0 the copy as written and the intended one agree |
| ConsoleFs.TimeRead | devdirtab/consolefs.c:118-137 | corrected: the data is the window of the rendered clock at the offset, and the count is its length |
| ConsoleFs.MsecRead | devdirtab/consolefs.c:139-159 | corrected: the data is the window of the rendered millisecond clock at the offset, and the count is its length |
| ConsoleFs.ConsoleWrite | devdirtab/consolefs.c:175-187 | the first `count` bytes of the request are written out in order and `count` is reported |
| ByteConv.ByteRoundTrip | devdirtab/netfs.c:102 | an index below 256 survives the conversion to a byte and back |
| NetQid.NetTablesAreOneLevel | devdirtab/netfs.c:74-88 | the static table and the clone table are both one level: a root directory whose parent is nobody, files under it, distinct row ids |
| NetQid.ConnIndex | devdirtab/netfs.h:33 | CONNINDEX is below 256 |
| NetQid.EncodeBytes | devdirtab/netfs.c:150-153 | the row id and the index byte of `qidpath \| index << 8` are the two bytes combined, and nothing above bit 15 is set |
| NetQid.EncodePath | devdirtab/netfs.c:99-102 | the encoded path gives back the row id and the pool index, and has no bit set above bit 15 |
| NetQid.EncodePathInjective | devdirtab/netfs.c:99-102 | two encoded paths are equal only for the same row id and the same pool index |
| NetQid.ConnPtr2Qid | devdirtab/netfs.c:95-104 | the qid has the row's type, version 0, and a path whose row id is the row's and whose index is the slot's |
| NetQid.Dt2Qid | devdirtab/netfs.c:144-155 | the qid has the row's type and id; its index is the connection's when there is one and 0 otherwise |
| NetQid.RetrieveFileSpecs | devdirtab/netfs.c:124-140 | a static path gives the static table with its size and no connection; a dynamic one gives the clone table with its size and the slot its path names |
| NetQid.InheritedQid | devdirtab/netfs.c:163-175 | without a connection the new qid keeps the fid's old pool index when that index names a slot, and gets index 0 otherwise |
| NetQid.NullHandleDropsIndex | devdirtab/dirtab.c:161-162 | inside a cloned directory the fid keeps its non-zero pool index while the qid returned for the same row carries index 0, so the two differ |
| NetQid.Dt2Fid | devdirtab/netfs.c:163-175 | the fid gets the qid of the row (with the given connection, or the one its old qid names), the name and the row; its mode, offset and table in scope are unchanged |
| NetCtl.ConnectArgs | devdirtab/netfs.c:357-363 | "connect" always yields a connect request: the address token with its count, then the port token from where the address ended |
| NetCtl.ParseArgsCases | devdirtab/netfs.c:354-397 | each command word selects its request: connect its two arguments, disconnect and release none, port one, any other word the illegal request |
| NetCtl.ParseAfterCommand | devdirtab/netfs.c:354 | the parse of a ctl write is the parse of the arguments after the first token and count that mygetstringopt returns |
| NetFs.ConnGraft | devdirtab/netfs.c:208-213 | the graft clone_open makes joins the root to the path of the slot's directory, splices in the clone table with its size, carries the slot as its handle and has the slot's decimal name |
| NetFs.CloneOpen | devdirtab/netfs.c:196-224 | with no free slot, ENOSPC and nothing changes; otherwise the lowest free slot is claimed, its graft is prepended to the registry and the fid is left on that directory's ctl file, in the clone table, with a dynamic qid; the lock is free afterwards and a registry the resolver can follow stays so |
| NetFs.CtlRead | devdirtab/netfs.c:243-268 | no connection gives ENOENT; a positive offset reads nothing; offset 0 reads the decimal index of the fid's slot |
| NetFs.CtlReadNamesTheSlot | devdirtab/netfs.c:262-263 | the index ctl_read prints for a claimed slot reads back with myatoi as the slot's position |
| NetFs.DataRead | devdirtab/netfs.c:270-289 | a slot that is not CONNECTED gives ENOTCONN and no change; a failed read or end of stream disconnects the slot and reports the error (errno unchanged at end of stream); otherwise the bytes read come back and nothing changes |
| NetFs.ListenRead | devdirtab/netfs.c:291-321 | a positive offset reads nothing and changes nothing; at offset 0 the effect is ListensOn |
| NetFs.ListenOn | devdirtab/netfs.c:309-317 | a slot that is not ASSIGNED gives EBADF and no change; a listen failure leaves it LISTEN; otherwise the lowest free slot is claimed for the accepted socket, CONNECTED, grafted under the root, the listener goes back to ASSIGNED and the answer is the new slot's decimal index; the lock is free afterwards and a registry the resolver can follow stays so |
| NetFs.CtlEffectTransitions | devdirtab/netfs.c:337-400 | a ctl command succeeds exactly when its conditions hold, and then makes exactly its transition (connect DISCONNECTED to CONNECTED, disconnect CONNECTED to DISCONNECTED, release DISCONNECTED to FREE, port DISCONNECTED to ASSIGNED); a failure keeps the status and, except for port's stored socket, the whole slot; index and name never change |
| NetFs.CtlWrite | devdirtab/netfs.c:337-400 | the effect on the pool and the registry is CtlWrites for the fid's slot; the registry lock is free afterwards, and a registry the resolver can follow stays so |
| NetFs.CtlWritesOf | devdirtab/netfs.c:354 | the effect computed from the first token's parse is the effect of the whole write |
| NetFs.RunCtl | devdirtab/netfs.c:349-400 | the fid's slot takes the effect of the parsed command, a failure reports its error and a success the whole count, and only a successful release changes the registry; the lock is free afterwards |
| NetFs.CtlConnect | devdirtab/netfs.c:355-369 | the slot takes the connect effect: an address token whose count, leading separators included, is below 7, or nothing left after it, is EINVAL; otherwise the result of createConnection on the port token (which may be empty, and myatoi reads "" as 0) |
| NetFs.CtlDisconnect | devdirtab/netfs.c:371-375 | the slot takes the disconnect effect: a slot that is not CONNECTED is an error, otherwise it becomes DISCONNECTED |
| NetFs.CtlRelease | devdirtab/netfs.c:376-385 | a slot that is not DISCONNECTED gives EADDRINUSE and no change; otherwise it becomes FREE and its graft is released from the registry with the corrected release, so the lock is free afterwards; a registry the resolver can follow stays so |
| NetFs.CtlPort | devdirtab/netfs.c:387-396 | the slot takes the port effect: EADDRINUSE unless DISCONNECTED, a socket failure stored in the slot, otherwise ASSIGNED |
| NetFs.DataWrite | devdirtab/netfs.c:402-420 | a slot that is not CONNECTED gives ENOTCONN; a failed write reports the error; otherwise the byte count written |
| NetFs.ReleaseUndoesClone | devdirtab/netfs.c:380-383 | releasing right after a clone finds the new graft at the head and restores the registry as it was before the clone |
| NetFs.ConnGraftKeepsValid | devdirtab/netfs.c:208-213 | a connection's graft has a destination table with a row 0, a size that fits it and a handle that fits a qid, so prepending it keeps every graft followable by the resolver |
| NetFs.GraftReleaseKeepsValid | devdirtab/netfs.c:380-383 | releasing a graft only unlinks a record, so every graft left is still followable by the resolver |
| NetFs.UpdateSame | devdirtab/netfs.c:396-397 | writing a slot back with its own value leaves the pool as it was |
| NetTree.RootListsCloneThenNewest | devdirtab/dirtab.c:34-83 | after clone_open the root lists the clone file, then the new connection directory under its decimal name |
| Dirtab.ServerDt2Qid | devdirtab/netfs.c:144-155 | whichever server is linked, the qid has the row's type, version 0 and the row id in its low eight bits |
| Dirtab.ServerDt2Fid | devdirtab/consolefs.c:72-76 | the fid gets the linked server's qid and the name; only the /net server also sets the row; mode, offset and scope are unchanged |
| Dirtab.StaticScan | devdirtab/dirtab.c:46-51 | the row found is the first at or after the cursor whose parent is the row id; None exactly when no such row remains |
| Dirtab.GraftScan | devdirtab/dirtab.c:71-79 | the graft found is the first at or after the list position whose start path is the directory's; None exactly when none remains |
| Dirtab.NextDirChild | devdirtab/dirtab.c:34-83 | the cursor never moves back; a row or graft hit leaves it just past the hit, with rows before list positions; no hit leaves it at the end of both |
| Dirtab.NextDirChildFinds | devdirtab/dirtab.c:34-83 | a resolver call finds the first matching row at or after the cursor on the low eight bits, failing that the first graft at or after the cursor's list position on the full path, failing that nothing |
| Dirtab.FindNextDirChild | devdirtab/dirtab.c:34-83 | the hit and the new cursor are those of NextDirChild |
| Dirtab.ScanRows | devdirtab/dirtab.c:46-51 | the first loop finds the row StaticScan finds and leaves the cursor just past it, or at the end of the table |
| Dirtab.SkipToList | devdirtab/dirtab.c:57-68 | the second loop reaches the cursor's list position, or reports NULL when the list ends before it |
| Dirtab.ScanGrafts | devdirtab/dirtab.c:71-82 | the third loop finds the graft GraftScan finds, counting each record it passes in the cursor |
| Dirtab.FindNextDirChild1 | devdirtab/dirtab.c:85-131 | the 8-bit variant is the resolver applied to the widened path: a row hit has that parent, a graft hit that start path |
| Dirtab.Listing | devdirtab/dirtab.c:34-83 | the children of repeated resolver calls all lie in the table or the list |
| Dirtab.StaticMatchesSkip | devdirtab/dirtab.c:46-51 | rows that do not match can be skipped without changing the matches that follow |
| Dirtab.GraftMatchesSkip | devdirtab/dirtab.c:71-79 | grafts that do not match can be skipped without changing the matches that follow |
| Dirtab.ListingOfGrafts | devdirtab/dirtab.c:57-82 | from a cursor in the list part, the listing is the matching grafts from that position on |
| Dirtab.ListingOfRows | devdirtab/dirtab.c:34-83 | from a cursor in the table part, the listing is the matching rows from there, then every matching graft |
| Dirtab.ListingRowStep | devdirtab/dirtab.c:46-51 | a cursor whose call finds row i lists that row, then what the cursor after it lists |
| Dirtab.ListingPastRows | devdirtab/dirtab.c:53-82 | a cursor with no matching row left lists only the matching grafts |
| Dirtab.ListingSameStep | devdirtab/dirtab.c:34-83 | two cursors at which the resolver takes the same step list the same children |
| Dirtab.EnumerationFromZero | devdirtab/dirtab.c:34-83 | from cursor 0 the resolver yields every row whose parent has the directory's low eight bits, in table order, then every graft starting at its whole path, in list order, then nothing |
| Dirtab.FirstNamed | devdirtab/dirtab.c:151-156 | the hit picked is visible under the walked name; None exactly when no listed child is |
| Dirtab.FirstNamedIsFirst | devdirtab/dirtab.c:151-156 | the hit picked is the first in the listing with that name |
| Dirtab.ListingStep | devdirtab/dirtab.c:151-154 | a resolver hit leads the listing, and NoChild ends it where that call leaves the cursor |
| Dirtab.StatMode | devdirtab/dirtab.c:265-267 | the mode has the owner read, write and execute bits, Dmdir exactly for a directory qid, and nothing else |
| Dirtab.Entry | devdirtab/dirtab.c:262-277 | the stat record has the qid and name, that mode, zero times, length 10, the guest owner names and no extension |
| Dirtab.EmitCons | devdirtab/dirtab.c:347-348 | serialising a first record comes first, and the rest get the room that is left |
| Dirtab.Emit | devdirtab/dirtab.c:320-349 | the bytes written stay below count, because each record gets the room left minus one byte |
| Dirtab.Records | devdirtab/dirtab.c:326-345 | there is one directory record per listed child |
| Dirtab.DirBytes | devdirtab/dirtab.c:303-351 | as written: a directory read returns fewer than count bytes, and nothing for a count of 0 |
| Dirtab.Server.constructor | devdirtab/dirtab.c:26-28 | a server starts with no dirtab handlers installed |
| Dirtab.Server.InitDirtab | devdirtab/dirtab.c:448-481 | plain 9P2000, the handlers installed and the given table served |
| Dirtab.Attach | devdirtab/dirtab.c:182-214 | an auth fid gives Enoauth and no fid; otherwise a fresh fid on row 0 of the main table, scoped to it, with mode -1 and offset 0, whose qid is returned |
| Dirtab.Clone | devdirtab/dirtab.c:217-233 | the new fid has the original's name, qid, row and scope, offset 0 and mode -1 |
| Dirtab.Enter | devdirtab/dirtab.c:156-168 | the answer is the hit's qid built with its handle; the fid takes the hit's row and visible name, and through a graft the destination table as its scope |
| Dirtab.Walk | devdirtab/dirtab.c:133-179 | with no child of that name, ENOENT and the fid unchanged; otherwise the fid moves to the first child in enumeration order with that name, as Enter describes, and that child's qid is returned |
| Dirtab.Open | devdirtab/dirtab.c:284-299 | the open mode is recorded; the row's open operation takes over when it has one, otherwise the fid's qid is the answer |
| Dirtab.Stat | devdirtab/dirtab.c:249-282 | the record has the fid's qid and name, the guest mode bits, Dmdir exactly for a directory and length 10 |
| Dirtab.ReadDir | devdirtab/dirtab.c:302-351 | corrected: offset 0 rewinds the cursor; the data and the new cursor are DirRead's: the records from the cursor while each fits, with the cursor left on the first child whose record does not |
| Dirtab.ReadStepDone | devdirtab/dirtab.c:323-324 | when the resolver finds no more, what is written is the whole answer and the cursor is where the listing ends |
| Dirtab.RecordsStep | devdirtab/dirtab.c:322-331 | the records of a listing whose first call finds a child are that child's record, then the rest |
| Dirtab.EmitStep | devdirtab/dirtab.c:347-348 | a loop turn keeps "written so far plus records to come is the whole answer" |
| Dirtab.ReadEntries | devdirtab/dirtab.c:318-350 | as written: the data is the records of the listing from the fid's cursor that fit in the room left; a record that does not fit is dropped, and the cursor ends where the listing ends, past it |
| Dirtab.ReadLosesRecord | devdirtab/dirtab.c:320-348 | as written, a read of a root with children "a" and "b" and room for 12 bytes, where each record takes 10, returns only "a"'s record and leaves the cursor at 3, from which nothing more is listed: "b" is lost |
| Dirtab.FitReadKeepsRecord | devdirtab/dirtab.c:320-348 | corrected, the same read returns the same 10 bytes and leaves the cursor at 2, from which "b" is listed |
| Dirtab.TwoFilesListing | devdirtab/dirtab.c:34-83 | the two-file root lists "a" then "b" from cursor 0, "b" from cursor 2, and nothing from cursor 3, where its listing ends |
| Dirtab.ChildStatsAt | devdirtab/dirtab.c:326-345 | the record function gives each listed child the record the loop builds for it |
| Dirtab.StatsOf | devdirtab/dirtab.c:326-345 | one record per hit, each the record function's value at that hit |
| Dirtab.FitRead | devdirtab/dirtab.c:320-349 | corrected: the bytes stay below count |
| Dirtab.FitReadFits | devdirtab/dirtab.c:322-348 | corrected: a turn whose record fits writes it, then what the read from the next cursor writes, and ends where that read ends |
| Dirtab.FitReadStops | devdirtab/dirtab.c:322-348 | corrected: no child ends the read with nothing written at the cursor the resolver leaves; a record that does not fit ends it with nothing written and the cursor put back |
| Dirtab.FitReadResumes | devdirtab/dirtab.c:320-349 | corrected: no child is lost: the listing from the cursor is the children written, in order, then the listing from the cursor the read leaves; the bytes are exactly the written children's records; a child left over is one whose record did not fit in the room left; with none left the cursor is where the listing ends |
| Dirtab.ResumesFrom | devdirtab/dirtab.c:320-349 | corrected: FitReadResumes's statement, by induction over the resolver steps |
| Dirtab.ResumesAtEnd | devdirtab/dirtab.c:323-324 | corrected: FitReadResumes's statement where the resolver finds no child |
| Dirtab.ResumesAtMisfit | devdirtab/dirtab.c:347-348 | corrected: FitReadResumes's statement where the first child's record does not fit |
| Dirtab.ResumesOverFit | devdirtab/dirtab.c:347-348 | corrected: FitReadResumes's statement holds at a turn whose record fits, by the same statement from the cursor after it |
| Dirtab.SplitReadCons | devdirtab/dirtab.c:347-348 | a fitting record put in front of a split listing keeps the split, and its bytes come before the rest |
| Dirtab.StatsOfCons | devdirtab/dirtab.c:326-345 | the records of a hit put in front of a list are that hit's record, then the list's records |
| Dirtab.DirRead | devdirtab/dirtab.c:314-349 | corrected: a count of 0 returns nothing and leaves the cursor; otherwise fewer than count bytes |
| Dirtab.FitInvariantStep | devdirtab/dirtab.c:347-348 | corrected: a loop turn whose record fits keeps "written so far plus what the read still writes is the whole answer" |
| Dirtab.FitInvariantDone | devdirtab/dirtab.c:322-324 | corrected: where the loop stops, at no child or at a record that does not fit, the answer is complete and the cursor is the answer's |
| Dirtab.ReadFitting | devdirtab/dirtab.c:318-350 | corrected: the data and the new cursor are FitRead's from the fid's cursor: the cursor is saved before each resolver call and put back when the record does not fit |
| Dirtab.Read | devdirtab/dirtab.c:354-390 | corrected: a directory fid returns DirRead's bytes and leaves its cursor where DirRead says; a file hands over to its read operation, or gets EPERM without one, and keeps its cursor |
| Dirtab.WriteStat | devdirtab/dirtab.c:394-418 | Edirchange exactly when a mode other than "don't touch" sets Dmdir on a file; anything else is accepted |
| Dirtab.Write | devdirtab/dirtab.c:420-445 | EPERM exactly for a directory or a file without a write operation; otherwise that operation takes over |
| NpConn.FrameSize | libnpfs/conn.c:179-180 | the size field read as an unsigned little-endian u32 is below 2^32 |
| NpConn.Le32 | libnpfs/conn.c:179-180 | a u32 encodes as four bytes |
| NpConn.FrameSizeOfLe32 | libnpfs/conn.c:179-180 | the size field read back from a little-endian encoding is the size that was written |
| NpConn.FrameCheck | libnpfs/conn.c:179-188 | corrected: ENOMEM exactly when the u32 size exceeds the buffer's capacity, a wait exactly when it fits but is not all buffered, otherwise a frame of that size that fits both |
| NpConn.SignedFrameSize | libnpfs/conn.c:179-180 | as written, a top byte below 128 gives the u32 size and one of 128 or more a negative size |
| NpConn.FrameCheckAsWritten | libnpfs/conn.c:179-188 | as written: on a top byte below 128 it decides as FrameCheck |
| NpConn.NegativeSizePassesCheck | libnpfs/conn.c:179-190 | five bytes with size field 0x80000000 reach np_deserialize with a negative length as written, and are ENOMEM under the u32 reading |
| NpConn.DrainKeepsBytes | libnpfs/conn.c:178-215 | the frames loop loses and reorders no byte: the dispatched frames, then the bytes kept, are the buffered bytes |
| NpConn.DrainFramesAccepted | libnpfs/conn.c:182-200 | every dispatched frame is non-empty, fits the buffer and is one the decoder accepted |
| NpConn.DrainStops | libnpfs/conn.c:178-200 | the loop stops exactly on four bytes or fewer or an incomplete frame (no error), an oversized frame (ENOMEM) or one that does not decode (EPROTO) |
| NpConn.DrainHalts | libnpfs/conn.c:178-200 | on bytes where the loop stops at once nothing is dispatched, everything is kept, and the error names why |
| NpConn.DrainsAsHalt | libnpfs/conn.c:178-200 | where the loop stops, the frames dispatched so far are all of Drain's and the bytes left are its rest |
| NpConn.DrainStep | libnpfs/conn.c:202-213 | a complete frame that decodes is dispatched first and the rest is drained after it |
| NpConn.DrainsAsStep | libnpfs/conn.c:202-213 | dispatching the next frame keeps "dispatched plus what the rest drains to is the whole drain" |
| NpConn.FreeAsWritten | libnpfs/conn.c:310-323 | as written: below the cap the packet is kept but the count stays the same; at the cap it is let go |
| NpConn.FreeListUnbounded | libnpfs/conn.c:314-317 | as written, after k frees from empty all k packets are kept and the count is still 0, so the cap of 64 never applies |
| NpConn.FreeCounted | libnpfs/conn.c:310-323 | corrected: the count stays equal to the list's length and at most 64; below the cap the packet is pushed on the list, at the cap it is let go |
| NpConn.BufSet | libnpfs/conn.c:356-362 | the buffer points at the new packet with the given size, at position 0 |
| NpConn.TookStep | libnpfs/conn.c:292-308 | one more new_rcall extends the packet bookkeeping by one packet: the next from the free list, or else the next fresh one |
| NpConn.Connection.constructor | libnpfs/conn.c:42-74 | a new connection has empty buffers and queues, a first receive packet from malloc, an empty free list and no current write |
| NpConn.Connection.NewRcall | libnpfs/conn.c:292-308 | the head of the free list is taken, or a fresh packet when it is empty; the receive buffer is empty and points at it with the connection's msize |
| NpConn.Connection.FreeRcall | libnpfs/conn.c:310-323 | corrected: the free list and count are FreeCounted's, the packet is kept exactly when fewer than 64 are, and nothing else changes |
| NpConn.Connection.NewWcall | libnpfs/conn.c:325-341 | the new write becomes current and the write buffer points at it with its size, or at nothing with size 0; nothing else changes |
| NpConn.Connection.SendFcall | libnpfs/conn.c:270-290 | the reply becomes the last outstanding one: the current write when nothing is being written, otherwise the tail of the queue; nothing else changes |
| NpConn.Connection.DataOut | libnpfs/conn.c:221-244 | nothing happens while the current write is unfinished; afterwards the head of the queue, or nothing, becomes current, so the finished reply leaves the outstanding ones and the rest keep their order |
| NpConn.Connection.FrameLoop | libnpfs/conn.c:178-215 | corrected: the dispatched frames, the bytes kept and the error are Drain's, and each dispatched frame took one packet |
| NpConn.Connection.DataIn | libnpfs/conn.c:165-219 | corrected: the frames Drain yields are handed on in order, the buffer keeps Drain's rest, an error becomes the connection's failure, and the transport is told of the new buffer exactly when frames were dispatched without error |
| NpConn.Connection.FrameStep | libnpfs/conn.c:179-214 | corrected: one turn stops on an oversized, incomplete or undecodable frame, or dispatches one frame and shortens the buffer |
| NpConn.Connection.TakeFrame | libnpfs/conn.c:202-213 | the frame is handed on, the bytes after it move to the start of a new packet, and one packet is taken |
| FdTrans.Aim | libnpfs/fdtrans.c:262 | storing a slot through the pointer of one side sets that pointer to the slot and changes no other field |
| FdTrans.InitialFds | libnpfs/fdtrans.c:227-236 | the new pollfd table has 32 entries and slot 0 polls the pipe's read end for input and output |
| FdTrans.WithEvents | libnpfs/fdtrans.c:132-157 | after setting or clearing one event on a slot, that event is present exactly when it was set, every other event and every other slot is as it was |
| FdTrans.RxEventsAsWritten | libnpfs/fdtrans.c:150-157 | as written: the table keeps its size; POLLIN is set on the input slot but cleared on the output slot |
| FdTrans.RxWithdrawLeavesInputPolled | libnpfs/fdtrans.c:150-157 | with distinct input and output slots, withdrawing the receive buffer as written leaves POLLIN on the input slot, while clearing it there removes it |
| FdTrans.LiveSlots | libnpfs/fdtrans.c:302-327 | the slots poll_update_table keeps, in increasing order: exactly those below the bound that hold a connected transport |
| FdTrans.FreedOnceIsDistinct | libnpfs/fdtrans.c:307-312 | corrected: no transport is freed twice, and the set freed is the one the code as written frees |
| FdTrans.DisconnectedPairFreedTwice | libnpfs/fdtrans.c:307-312 | a disconnected transport in slots 1 and 2 is freed twice as written and once as corrected |
| FdTrans.LinkedAdd | libnpfs/fdtrans.c:259-262 | placing a transport in an empty slot, with its pointer aimed there, keeps every pointer naming its slot and no transport twice on one descriptor |
| FdTrans.LinkedOtherKey | libnpfs/fdtrans.c:85-91 | a transport in no slot can change without breaking the pointer links |
| FdTrans.LinkedSamePointers | libnpfs/fdtrans.c:286 | changing a transport's connected flag keeps the pointer links |
| FdTrans.LinkedEvents | libnpfs/fdtrans.c:132-157 | changing a slot's events keeps the pointer links |
| FdTrans.Shift | libnpfs/fdtrans.c:314-322 | moving slot i down to n: n holds what i held, i is empty when it differs from n, every other slot unchanged |
| FdTrans.ShiftFds | libnpfs/fdtrans.c:316 | the pollfd of slot i is copied to n and no other pollfd changes |
| FdTrans.Repoint | libnpfs/fdtrans.c:317-320 | after a move to n, the pointer of whichever descriptor the slot polls names n; descriptors, flags and other transports unchanged |
| FdTrans.LayoutStart | libnpfs/fdtrans.c:302 | at slot 1 with one slot filled, the compaction layout holds |
| FdTrans.LayoutKeep | libnpfs/fdtrans.c:314-325 | moving a live slot down keeps the layout: the kept slots are the live ones so far, in order |
| FdTrans.LayoutDrop | libnpfs/fdtrans.c:307-312 | emptying a dead slot keeps the layout and fills nothing |
| FdTrans.LinkedShift | libnpfs/fdtrans.c:314-322 | moving a slot down to an empty one and re-aiming its transport's pointer keeps the pointer links |
| FdTrans.LinkedDrop | libnpfs/fdtrans.c:312 | emptying a slot keeps the pointer links |
| FdTrans.LinkedGrow | libnpfs/fdtrans.c:331-339 | adding empty slots, whatever their pollfds, keeps the pointer links |
| FdTrans.CompactSkip | libnpfs/fdtrans.c:303-305 | an empty slot is passed over and the loop's state still holds one slot further on |
| FdTrans.LayoutSkip | libnpfs/fdtrans.c:303-305 | an empty slot leaves the layout as it is |
| FdTrans.FreedSkip | libnpfs/fdtrans.c:313-326 | a slot without a disconnected transport frees nothing |
| FdTrans.CompactFree | libnpfs/fdtrans.c:307-312 | corrected: a disconnected transport's slot is emptied and the transport is freed unless it already was, keeping the loop's state |
| FdTrans.CompactKeep | libnpfs/fdtrans.c:313-326 | a connected transport's slot moves down to n (or stays at n) with its pointer, and n advances, keeping the loop's state |
| FdTrans.CompactDone | libnpfs/fdtrans.c:327-329 | after the loop fdnum is one past the kept slots, which hold the live slots in order, are all occupied, and are followed only by empty slots |
| FdTrans.GrowCompacted | libnpfs/fdtrans.c:331-339 | adding 32 empty slots keeps the compacted layout |
| FdTrans.SameEntry | libnpfs/fdtrans.c:341-344 | storing a transport's current state under its handle changes nothing |
| FdTrans.EmptiesPositive | libnpfs/fdtrans.c:252-257 | there is an empty slot from lo on exactly when the count of empty slots there is positive |
| FdTrans.EmptiesFill | libnpfs/fdtrans.c:259 | filling one empty slot lowers the count of empty slots by one |
| FdTrans.EmptiesSame | libnpfs/fdtrans.c:252-254 | tables that agree from lo on have as many empty slots there |
| FdTrans.OnlyFilledTwice | libnpfs/fdtrans.c:102-104 | two rounds of filling empty slots fill only empty slots |
| FdTrans.FirstAdded | libnpfs/fdtrans.c:103 | the first poll_add of a pair succeeds exactly when there is an empty slot; then its slot serves fdin and pfdin names it; links kept, only an empty slot filled |
| FdTrans.SecondAdded | libnpfs/fdtrans.c:104 | the second poll_add succeeds exactly when an empty slot remains; then its slot serves fdout and pfdout names it, and fdin's slot still serves fdin |
| FdTrans.PairAdded | libnpfs/fdtrans.c:102-111 | a transport with two descriptors ends connected exactly when two empty slots were available, and then both pointers name slots polling their descriptors |
| FdTrans.SingleAdded | libnpfs/fdtrans.c:105-111 | a transport with one descriptor ends connected exactly when an empty slot was available, and then both pointers name the slot polling it |
| FdTrans.Overwrite | libnpfs/fdtrans.c:108-111 | storing twice under a handle keeps the second state |
| FdTrans.EmptyLinked | libnpfs/fdtrans.c:228-233 | a table with no transport in it has its pointer links |
| FdTrans.Poll.constructor | libnpfs/fdtrans.c:64 | the static poller: not initialised, no transports, no flags |
| FdTrans.Poll.PollInit | libnpfs/fdtrans.c:222-240 | 32 empty slots, slot 0 polling the pipe for input and output, fdnum 1, no flags |
| FdTrans.Poll.PollAdd | libnpfs/fdtrans.c:242-273 | the poller is initialised if need be; the lowest empty slot at or above fdnum gets the transport and the descriptor polled for the events plus errors, and the side's pointer names it; with no empty slot the result is false and nothing changes; the flags become TblModified and Notified, and poll_notify runs exactly when Notified was clear |
| FdTrans.Poll.Place | libnpfs/fdtrans.c:252-264 | success exactly when an empty slot exists at or above fdnum; the slot chosen is the lowest such, and only it, its pollfd and the transport's pointer change |
| FdTrans.Poll.PollRemove | libnpfs/fdtrans.c:275-293 | without a poller nothing at all happens; otherwise the transport is marked disconnected exactly when it sits in a polled slot 1 .. fdnum-1, nothing else changes, and the flags and notification are as in poll_add |
| FdTrans.Poll.Finish | libnpfs/fdtrans.c:327-329 | after the loop, with fdnum set, the poller is valid and the tables have the compacted layout |
| FdTrans.Poll.CompactSlot | libnpfs/fdtrans.c:303-326 | one turn of the loop keeps the compaction state one slot further on |
| FdTrans.Poll.FreeSlot | libnpfs/fdtrans.c:307-312 | corrected: the slot is emptied and the transport freed unless already freed in this pass, keeping the compaction state |
| FdTrans.Poll.MoveSlot | libnpfs/fdtrans.c:314-323 | the slot moves down to n with its pollfd, the pointer follows, and the compaction state holds with one more slot filled |
| FdTrans.Poll.Compaction | libnpfs/fdtrans.c:302-329 | corrected: the connected transports' slots move down, in order, to 1 .. fdnum-1, all later slots are empty, the disconnected transports are freed once each, and only pointers change |
| FdTrans.Poll.CompactLoop | libnpfs/fdtrans.c:302-327 | corrected: running the loop over every slot reaches the end state of the compaction |
| FdTrans.Poll.UpdateTable | libnpfs/fdtrans.c:295-348 | corrected: the compaction above, and the table grows by 32 slots exactly when fewer than 32 were free and the reallocation succeeded |
| FdTrans.Poll.Grow | libnpfs/fdtrans.c:330-345 | trans gains 32 empty slots, the old pollfds are kept, and the transports (whose pointers are slot indices) are unchanged |
| FdTrans.Poll.Realloc | libnpfs/fdtrans.c:331-339 | both tables 32 slots larger, old contents kept, new trans slots empty, the poller still valid |
| FdTrans.Poll.Enlarged | libnpfs/fdtrans.c:331-335 | fresh tables holding the old contents followed by 32 slots, the new trans slots empty |
| FdTrans.Poll.RepointAll | libnpfs/fdtrans.c:340-345 | re-aiming every pointer at its slot leaves the transports as they were, since the table is linked |
| FdTrans.Poll.CreateTransport | libnpfs/fdtrans.c:78-114 | a new transport with the two descriptors, connected exactly when there was room for each distinct descriptor, then both pointers naming slots polling them; only empty slots filled |
| FdTrans.Poll.AddPair | libnpfs/fdtrans.c:102-111 | the state CreateTransport promises, for distinct descriptors |
| FdTrans.Poll.AddSingle | libnpfs/fdtrans.c:105-111 | the state CreateTransport promises, for one shared descriptor |
| FdTrans.Poll.SetTbuf | libnpfs/fdtrans.c:125-141 | POLLOUT set on the output slot with a buffer, cleared without one; with a buffer Notified is set and the poller woken exactly when it was clear |
| FdTrans.Poll.SetRbuf | libnpfs/fdtrans.c:143-158 | corrected: POLLIN set on the input slot with a buffer and cleared on the same slot without one; notification as in SetTbuf |
| FdTrans.Poll.SetEvents | libnpfs/fdtrans.c:132-140 | one event set or cleared on one slot, the pointer links kept |
| FdTrans.Poll.Notify | libnpfs/fdtrans.c:135-138 | Notified becomes set; the poller is woken exactly when it was clear |

## Left out

- **Concurrency and I/O.** Threads, mutexes and I/O are left out. `poll_proc` and the pipe, `np_fdtrans_read`/`np_fdtrans_write`/`np_fdtrans_error`, `fcntl` and `close` have no model: each is a system call or a thread body. Locks are modelled only where a defect hangs on them: the registry's `held` flag.
- **`createConnection`'s early returns.** They leave the pool's lock held. The pool lock is not modelled, so this is not captured.
- **Other server code.** `main`, `usage` and the socket server (libnpfs/socksrv.c) are I/O plumbing. `cons_read` reads standard input. The `fprintf` warnings are logging.
- **`dirtab_clunk`.** It only calls `np_fid_decref`, whose body is not part of this model.
- **Missing returns.** The C handlers that fall off the end without a `return` are modelled with the value they evidently mean to return.
- **Name lengths.** Unbounded copies into `KNAMELEN` buffers are not modelled. Names are sequences.
- **`np_conn_reset` and `np_conn_shutdown`.** Both do request-list surgery through helpers that are not part of this model.
- **Decoding.** `np_deserialize` is the predicate parameter `decodes`, and a frame is dispatched as its bytes.
- **`np_conn_call_in`.** It is modelled as appending the frame to `requests`. The server's request handling, and `np_trans_set_rxbuf`/`np_trans_set_txbuf`, are left out.
- **Packets.** `malloc` is a counter, and packets are numbers. The free of the old write in `np_conn_new_wcall` is not modelled.
- **The reply queue tail.** `rcallp` is implicit: it is always the end of the reply sequence.
- NpConn.Connection.SendFcall: requires a reply of non-zero size. A zero-size reply would be indistinguishable from "nothing being written" in the C as well.
- NpConn.Connection.DataIn: `msize` is an unbounded number. The source's 32-bit width is modelled only where the size field is read (NpConn.FrameSize).
- FdTrans.Poll.UpdateTable: the outcome of the two `realloc` calls is the parameter `grown`, and the new pollfds' contents are arbitrary. The dangling pointer left when only one `realloc` succeeds is not modelled.
- **`np_fdtrans_destroy`.** It is only `poll_remove`, which FdTrans.Poll.PollRemove models.
- **Poll table pointers.** Pointers into the pollfd table are slot indices, and aliasing between the two tables is modelled by transport handles. A pointer `poll_add` never set is `None`.
- **Freeing transports.**
  - A transport that failed to find a slot is leaked, as in the source.
  - Freed transports stay in the handle map; `freed` records them.
- **Event masks.** Events are a set of the four poll(2) events the code uses, not a 16-bit mask.
- FdTrans.Poll.SetTbuf: requires `pfdout` to be set. The source dereferences it unguarded.
- FdTrans.Poll.SetRbuf: requires `pfdin` to be set. The source dereferences it unguarded.
- NetFs.DataRead: requires the fid to name a slot. The source dereferences the slot pointer unguarded, and `data_write`, `ctl_write` and `listen_read` at offset 0 do the same.
- NetFs.DataWrite: requires the fid to name a slot, as NetFs.DataRead does.
- NetFs.CtlWrite: requires the fid to name a slot, as NetFs.DataRead does.
- NetFs.ListenRead: requires that a slot is free when a listen succeeds. The source dereferences the NULL that `findfreeConn` returns otherwise.
- MyConn.ConnPool.ListenOnConnection: requires a free slot when a listen succeeds, for the same reason as NetFs.ListenRead.
- MyConn.GetConnPtr: an index of `MAXCONN` or more gives `None`. The source indexes past the array there.
- MyUtils.HexToChar: a value outside 0-15 gives `None`. The source calls `exit` there.
- MyUtils.CharToHex: a character that is not a hex digit gives `None`. The source calls `exit` there.
- **The console clocks.** They are parameters of ConsoleFs.TimeRead and ConsoleFs.MsecRead.
- **Stat records.** `np_serialize_stat` is a parameter whose output length is bounded by the buffer it is given.
- Casafs.Fid.Alloc: the fields `npfs_fidalloc` leaves as `malloc` returned them get placeholder values, and nothing is promised about them.
- MyConn.ConnPool.AssignPort: the outcome of `bind` is a parameter with no effect, as in the source.
- **`getTPdestination`.** It is inlined where it is used, as a field read of the graft record.
- MyUtils.MyAtoi: signed overflow is undefined behaviour in C. The model takes the two's-complement wrap-around that common platforms give, so a port of ten or more digits can read as any 32-bit value.
- TransferPoints.Registry.CreateConfigured: requires the registry lock to be free. A caller holding it would block for ever on the non-recursive mutex.
- TransferPoints.Registry.Release: requires the registry lock to be free, as CreateConfigured does.
- TransferPoints.Registry.ReleaseAsWritten: requires the registry lock to be free, as CreateConfigured does.
- NetFs.CloneOpen: requires the registry lock to be free, for the same reason. NetFs.ListenRead, NetFs.ListenOn, NetFs.RunCtl and NetFs.CtlRelease require it too.
- NetFs.CtlWrite: requires the registry lock to be free, for the same reason. The lock ends free, because the release it uses is the corrected TransferPoints.Registry.Release.
- Dirtab.ReadFitting: an empty serialisation is read as "the record does not fit". This is what `np_serialize_stat` returns when the room is short.

## Findings

| source | as written | input that shows it | evidently intended | confidence | as-written member | corrected member |
|---|---|---|---|---|---|---|
| devdirtab/consolefs.c:131 | `time_read` copies from `b`, not `b + offset` (`msec_read` at line 153 likewise) | with the clock at 42 the file is "42\n", and a read of 10 bytes at offset 1 returns "42" | the bytes from the offset on, "2\n" | not executed | ConsoleFs.ReadRendered / ConsoleFs.PrefixWindowIgnoresOffset | ConsoleFs.ReadRenderedAt |
| libnpfs/conn.c:314-317 | `np_conn_free_rcall` pushes the packet on the free list but never increments `freercnum`, while `np_conn_new_rcall` decrements it | 65 frees from an empty list keep all 65 packets, with a count of 0 | a count equal to the list's length, capped at 64 | not executed | NpConn.FreeAsWritten / NpConn.FreeListUnbounded | NpConn.FreeCounted / NpConn.Connection.FreeRcall |
| libnpfs/conn.c:179-182 | the size field is assembled in a signed `int`, so a top byte of 128 or more makes it negative, and the capacity check passes | the buffered bytes [0, 0, 0, 0x80, 0] declare size -2^31, which passes the check and reaches `np_deserialize` | the size read as an unsigned u32; larger than the capacity is ENOMEM | not executed | NpConn.FrameCheckAsWritten / NpConn.NegativeSizePassesCheck | NpConn.FrameCheck |
| libnpfs/fdtrans.c:150-157 | `np_fdtrans_setrbuf` withdraws POLLIN from `pfdout` instead of `pfdin` | a transport with distinct descriptors whose input slot polls POLLIN keeps POLLIN there after its receive buffer is withdrawn | POLLIN cleared on the input slot | not executed | FdTrans.RxEventsAsWritten / FdTrans.RxWithdrawLeavesInputPolled | FdTrans.Poll.SetRbuf |
| libnpfs/fdtrans.c:307-312 | a disconnected transport with distinct descriptors occupies two slots, and `poll_update_table` frees it at each | a disconnected transport in slots 1 and 2 is freed twice (the second read of it is after its free) | each disconnected transport freed once | not executed | FdTrans.DisconnectedPairFreedTwice | FdTrans.FreedOnceIsDistinct / FdTrans.Poll.UpdateTable |
| devdirtab/dirtab.c:320-348 | `findNextDirChild` moves `f->offset` past a child before `np_serialize_stat` is called, and a record that does not fit comes back as 0 bytes while the loop goes on | a root with children "a" and "b", records of 10 bytes and a count of 12: the read returns "a"'s record and leaves the cursor at 3, so "b" is never listed | stop at the first record that does not fit, with the cursor left on that child | not executed | Dirtab.ReadEntries / Dirtab.ReadLosesRecord | Dirtab.FitRead / Dirtab.FitReadResumes / Dirtab.ReadFitting |
| devdirtab/TransferPoint.c:77-81 | a joining record behind the head is unlinked and 1 is returned without unlocking `globallock` | two grafts, then the release of the older one: the lock stays held, and the next create or release blocks | unlock on every path out of the function | not executed | TransferPoints.Registry.ReleaseAsWritten / TransferPoints.LockLeftHeld | TransferPoints.Registry.Release |
