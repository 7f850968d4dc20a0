# Proofs about the Nios II firmware and its HAL

A Dafny model of the stateful and arithmetic code of this repository's Nios II software: the
interrupt-driven JTAG UART driver, the alarm list and tick counter, the file-descriptor pool, the
two printf routines, the clock and delay arithmetic, the heap, and the board supervisor of
`main.c`. `dafny verify dfyconfig.toml` checks all of it.

| file | models |
|---|---|
| `Words.dfy`, `BitWords.dfy`, `Division.dfy` | 32-bit words, their wrap-around and their bits; division by a variable |
| `Ring.dfy`, `JtagUart.dfy` | circular buffers; the driver, its device and its interrupts |
| `AlarmClock.dfy`, `AlarmList.dfy`, `AlarmWalk.dfy`, `AlarmTick.dfy`, `AlarmPlan.dfy`, `AlarmRun.dfy` | deadline encoding; list histories; walks along a changing list; the linked list and `alt_tick`; which callbacks let a tick end; runs of ticks |
| `FdPool.dfy`, `FdCalls.dfy` | descriptor tables as values; the calls as the HAL has them |
| `Digits.dfy`, `LogPrintf.dfy`, `AltPrintf.dfy`, `Conversions.dfy` | positional notation; the two printers; what each conversion letter shows |
| `TimeOfDay.dfy`, `BusySleep.dfy`, `Heap.dfy` | settimeofday and gettimeofday; `alt_busy_sleep`; `sbrk` and `mcount_allocate` |
| `Supervisor.dfy` | layer debouncing, hot-plug retry, chip selects, the supervisor loop |

## How to read the model

**JTAG UART.** The class `State` has the fields of the driver's state structure; `Device` is the
hardware, an environment that may deliver bytes, free room and request interrupts whenever it is
accessed. Thread-side methods call `Preempt` wherever the original can be interrupted between two
accesses to shared state, including between two bytes of a `memcpy`. `Preempt` runs any number of
interrupt and timeout routines, so the contracts hold for every interleaving. Ghost fields record the
bytes `accepted` from writers, `sent` to the device, which `arrived` from the host and which were
`returned` to readers. The original waits in loops with no bound of their own; the parameters
`patience` and `passes` cut such a loop off after any number of turns, and an `Outcome` of
`Spinning` is a call still waiting at that point, after at least that many chances for interrupts. As they are arbitrary, the contracts cover every
finite prefix of every execution; whether the host ever answers is not claimed. Assumed of the
device: it has not delivered bytes to the driver before initialisation, a data word without RVALID has
RAVAIL zero, and it accepts as many bytes as WSPACE announced.

**Alarms.** `AlarmClock` relates the wrapping clock and the rollover flag to an unbounded deadline.
`AlarmTick` has the pointers. A callback is any sequence of starts and stops, of any alarm whether
visited or not, followed by any reply; what each alarm's callback does in a tick is a parameter,
`plan`, so the contracts hold for all callbacks. The loop of `alt_tick` is cut off after any number
of `turns`, so its end is something proved rather than assumed. `journal` records what was started
and stopped and for which deadline, and each alarm has a ghost history of its callbacks and replies
since it was started. `AlarmWalk` has what is true of any walk along a circle that changes under it.
`AlarmPlan` has the conditions on list, deadlines and callbacks before a tick: the tick ends with every
alarm visited once, in order, exactly if no due callback stops an alarm after its own; callbacks that
re-arm, stop themselves or what has been visited, or start alarms, do no harm. `AlarmRun` has runs of
any length, each tick after any starts and stops by other code; its rounds tell everything that
happened from the calls and the callbacks' plans.

**Descriptors.** `FdPool` has each call as a function on table values, with the lemmas; `FdCalls`
has the same calls as loops and updates of the global array, each proved equal to its function.
The invariant has the conjunct that makes the short scan of `alt_fd_lock` safe: an
exclusive descriptor is below every other descriptor for its device. Registered devices and
filesystems are disjoint, and a call names an open descriptor, which the original does not check,
or a negative one, which it does; only `fcntl` is also modelled on free descriptors.

**Printers.** The specification cuts the format into tokens and renders each one from its own text.
Arguments must match the format in number and kind, as C requires. `Conversions` says what the
specification comes to without naming it: value, sign, base, letter case and padding, letter by letter.

**Heap.** A block from `sbrk` is live up to the break, so lowering the break gives back what lies above
it; slabs and pieces are never given back. Requests are proper when they leave the slabs alone, ask
for pieces of at most 1020 bytes, as the two callers of `mcount_allocate` do
(`software/nios2_bsp/HAL/src/alt_gmon.c:187`, `:198`), and find room for a slab when they need one.
Each of these premises is shown to be needed.

## Where the code falls short of its documentation

Each is stated by a lemma with the exact condition under which the code does what is expected.

- `alt_fd_lock` promises to refuse while another descriptor refers to the device, but does not look
  at descriptor `alt_max_fd` (`FdPool.LockAsDocumentedIff`). Mutual exclusion survives.
- `fcntl` does not check that its descriptor is open and can leave flags on a free one
  (`FdPool.FcntlKeepsZeroIff`); the next open of it overwrites them.
- `settimeofday` multiplies in 32 bits where `gettimeofday` multiplies in 64; a set after the
  product has wrapped is read back wrong (`TimeOfDay.SetThenGetExactIff`), and the clock is not exact
  for a rate that does not divide a million (`TimeOfDay.RateExactIff`).
- An alarm with the longest delay, 2^32 - 1, fires on the next tick
  (`AlarmClock.FirstCallbackExactIff`, `AlarmPlan.StartThenTick`).
- A callback that takes the alarm after its own out of the list leaves `alt_tick` circling on it;
  if it also puts it back, the walk starts over from there (`AlarmTick.System.Tick`,
  `AlarmPlan.StopsNext`, `AlarmPlan.StopTheNext`).
- A delay that is a whole number of full countdowns ends in a countdown from zero, 2^32 turns long
  (`BusySleep.NotTooLongIff`).
- `mcount_allocate` does not look at what `sbrk` returned (`Heap.PieceSafeIff`).
- The profiler's histogram is one bucket short unless the text is a multiple of 32 bytes
  (`Heap.HistogramCoversTextIff`).

## Model

| member | source | states |
|---|---|---|
| `JtagHardware.DataWord` | software/nios2_bsp/drivers/inc/altera_avalon_jtag_uart_regs.h:44-71 | the data word decodes back: byte, RVALID and RAVAIL occupy separate fields |
| `JtagHardware.Device.ReadData` | software/nios2_bsp/drivers/src/altera_avalon_jtag_uart_init.c:141-147 | assumption on the device: RVALID is set iff a byte was waiting, RAVAIL counts exactly the bytes left, and a word without RVALID has RAVAIL zero |
| `JtagHardware.Device.WriteData` | software/nios2_bsp/drivers/src/altera_avalon_jtag_uart_init.c:176-183 | assumption on the device: a byte written while WSPACE was positive is sent and uses one unit of room |
| `Ring.WriteRunIsSafe` | software/nios2_bsp/drivers/src/altera_avalon_jtag_uart_write.c:106-114 | the writer's three-way space computation never passes the end of the array or the free room, and is zero iff the ring holds BUF_LEN - 1 bytes |
| `Ring.ReadRunIsSafe` | software/nios2_bsp/drivers/src/altera_avalon_jtag_uart_read.c:120-128 | the reader's computation never passes the end of the array or the contents, and is zero iff the ring is empty |
| `Ring.FullTest` | software/nios2_bsp/drivers/src/altera_avalon_jtag_uart_init.c:137-139 | the interrupt routine's test next == rx_out holds iff the ring holds BUF_LEN - 1 bytes |
| `Ring.FillKeepsContents` | software/nios2_bsp/drivers/src/altera_avalon_jtag_uart_write.c:119 | writing free slots, wherever the indices are, changes none of the bytes the ring holds |
| `Ring.PublishRun` | software/nios2_bsp/drivers/src/altera_avalon_jtag_uart_write.c:119-123 | moving the in index over a copied run, with wrap, appends exactly that run to the contents |
| `Ring.ConsumeRun` | software/nios2_bsp/drivers/src/altera_avalon_jtag_uart_read.c:133-137 | moving the out index over a copied run, with wrap, drops exactly that run from the front |
| `Ring.Push` | software/nios2_bsp/drivers/src/altera_avalon_jtag_uart_init.c:149-150 | storing one byte and stepping rx_in appends that byte |
| `Ring.Pop` | software/nios2_bsp/drivers/src/altera_avalon_jtag_uart_init.c:176-178 | the byte at tx_out is the oldest, and stepping tx_out removes it alone |
| `JtagUart.State.Init` | software/nios2_bsp/drivers/src/altera_avalon_jtag_uart_init.c:66-100 | establishes every invariant with RE enabled and WE not; timeout becomes INT_MAX without a timer |
| `JtagUart.State.IrqReceive` | software/nios2_bsp/drivers/src/altera_avalon_jtag_uart_init.c:125-167 | conserves received bytes; stops only with a full ring or an empty device FIFO; clears RE only on a full ring, and always when bytes remain in the device, which keeps them |
| `JtagUart.State.IrqTransmit` | software/nios2_bsp/drivers/src/altera_avalon_jtag_uart_init.c:169-195 | sends exactly min(WSPACE read, ring) oldest bytes in order, and WE survives iff all of WSPACE was used |
| `JtagUart.State.Pass` | software/nios2_bsp/drivers/src/altera_avalon_jtag_uart_init.c:119-195 | one pass is told by the control word it read: with WI exactly min(WSPACE, ring) oldest bytes go out, without it none; with RI the ring ends full or the device empty, without it nothing is received |
| `JtagUart.State.Irq` | software/nios2_bsp/drivers/src/altera_avalon_jtag_uart_init.c:106-197 | every finite number of passes keeps the transmit, receive and enable invariants; the control words acted on determine how many bytes went out and whether the device was emptied; it leaves early only on a word with neither bit |
| `JtagUart.State.Preempt` | software/nios2_bsp/drivers/src/altera_avalon_jtag_uart_init.c:106-225 | any number of interrupts and timeouts, in any order, keep every invariant, do not touch the writer's buffer, and leave unread bytes in place |
| `JtagUart.State.CopyIn` | software/nios2_bsp/drivers/src/altera_avalon_jtag_uart_write.c:119 | a memcpy interrupted after any byte still ends with the caller's bytes in the free slots |
| `JtagUart.State.Publish` | software/nios2_bsp/drivers/src/altera_avalon_jtag_uart_write.c:123 | publishing tx_in adds exactly the copied bytes to what was accepted |
| `JtagUart.State.AppendRun` | software/nios2_bsp/drivers/src/altera_avalon_jtag_uart_write.c:106-123 | one round under interruption appends a prefix of the caller's bytes; zero only if the snapshot of tx_out showed a full ring |
| `JtagUart.State.FillRing` | software/nios2_bsp/drivers/src/altera_avalon_jtag_uart_write.c:103-127 | the inner loop appends a prefix of the bytes and stops early only when the ring was found full |
| `JtagUart.State.EnableTransmit` | software/nios2_bsp/drivers/src/altera_avalon_jtag_uart_write.c:136-139 | the WE section ends the window in which bytes may wait with WE clear |
| `JtagUart.State.SpinForRoom` | software/nios2_bsp/drivers/src/altera_avalon_jtag_uart_write.c:183-184 | unless cut off, the spin ends only with tx_out moved or the host timed out |
| `JtagUart.State.AwaitRoom` | software/nios2_bsp/drivers/src/altera_avalon_jtag_uart_write.c:183-188 | after a snapshot of a full ring the wait ends only with room in the ring or host_inactive having reached the timeout; reports host_inactive as it stands afterwards |
| `JtagUart.State.Write` | software/nios2_bsp/drivers/src/altera_avalon_jtag_uart_write.c:83-215 | accepted grows by exactly the first Moved bytes; short only if non-blocking, or with the host inactive and either room in the ring or the timeout reached during the call, and then at least by the room on entry; error values; no bytes left waiting with WE clear |
| `JtagUart.State.CopyOut` | software/nios2_bsp/drivers/src/altera_avalon_jtag_uart_read.c:133 | a memcpy out of the ring, interrupted after any byte, yields the oldest bytes the ring held at its start and changes no other byte of the caller's buffer |
| `JtagUart.State.Consume` | software/nios2_bsp/drivers/src/altera_avalon_jtag_uart_read.c:137 | publishing rx_out hands those bytes over: returned grows by them and the ring loses them |
| `JtagUart.State.TakeRun` | software/nios2_bsp/drivers/src/altera_avalon_jtag_uart_read.c:120-137 | one round under interruption: the bytes placed in the buffer are the next ones received; zero only on an empty ring |
| `JtagUart.State.DrainRing` | software/nios2_bsp/drivers/src/altera_avalon_jtag_uart_read.c:118-139 | the loop returns all the ring held on entry, or fills the caller's space |
| `JtagUart.State.SpinForData` | software/nios2_bsp/drivers/src/altera_avalon_jtag_uart_read.c:173-174 | unless cut off, the spin ends only with rx_in moved or the host timed out |
| `JtagUart.State.AwaitData` | software/nios2_bsp/drivers/src/altera_avalon_jtag_uart_read.c:173-178 | the wait ends the call iff the ring is still empty after it, and then host_inactive has reached the timeout |
| `JtagUart.State.EnableReceive` | software/nios2_bsp/drivers/src/altera_avalon_jtag_uart_read.c:188-195 | the RE section ends the window in which a reader has made room with RE clear |
| `JtagUart.State.Read` | software/nios2_bsp/drivers/src/altera_avalon_jtag_uart_read.c:100-203 | returned grows by exactly the bytes put in the buffer, in order; all that was waiting or all that fits; an error only on an empty ring, and when blocking only after host_inactive reached the timeout during the call; RE is set again |
| `JtagUart.State.Close` | software/nios2_bsp/drivers/src/altera_avalon_jtag_uart_init.c:241-254 | zero only if every accepted byte was sent or the host timed out; -EWOULDBLOCK and still waiting only with bytes left and a live host |
| `JtagUart.Serve` | software/nios2_bsp/drivers/src/altera_avalon_jtag_uart_write.c:83-215 | one call of a session: the bytes it reports are as many as its outcome says and are what the driver accepted or returned; why it may be short, fail or be cut off, for each of the three calls |
| `JtagUart.Session` | software/nios2_bsp/drivers/src/altera_avalon_jtag_uart_write.c:83-215 | every call of any sequence is served in order until one is cut off, under any interruption, and each report fits its call; the reported prefixes together equal sent ++ transmit ring, delivered ++ receive ring ++ device FIFO equals what the host sent, no waiting byte has WE clear, no room has RE clear |
| `AlarmClock.ArmRepresents` | software/nios2_bsp/HAL/src/alt_alarm_start.c:80-96 | for nticks <= 2^32 - 2 the stored time and flag stand for the unbounded deadline now + nticks + 1 |
| `AlarmClock.RolloverIffBehind` | software/nios2_bsp/HAL/src/alt_alarm_start.c:84-96 | the flag is set iff the stored time is behind the 32-bit clock, iff the deadline lies in the next 2^32 ticks epoch |
| `AlarmClock.TickIsExact` | software/nios2_bsp/HAL/src/alt_tick.c:109-115 | on each tick the comparison succeeds iff the unbounded deadline is reached; otherwise the encoding stays right |
| `AlarmClock.RearmRepresents` | software/nios2_bsp/HAL/src/alt_tick.c:127-137 | adding the reply encodes the deadline exactly that many ticks later, across a wrap |
| `AlarmClock.RunIsExact` | software/nios2_bsp/HAL/src/alt_tick.c:96-141 | over a run of any length the callback times equal the schedule on the unbounded time line: never early, never missed |
| `AlarmClock.StartedAlarmIsExact` | software/nios2_bsp/HAL/src/alt_alarm_start.c:80-98 | an alarm started with nticks <= 2^32 - 2 follows that schedule from start + nticks + 1 on |
| `AlarmClock.FirstCallbackExactIff` | software/nios2_bsp/HAL/src/alt_alarm_start.c:82-96 | the first callback is exact iff nticks < 2^32 - 1 or the clock is at 2^32 - 1 |
| `AlarmClock.LongestDelayElsewhere` | software/nios2_bsp/HAL/src/alt_alarm_start.c:82-96 | the counterexample: nticks = 2^32 - 1 at any other clock value fires on the very next tick |
| `AlarmTick.System.Insert` | software/nios2_bsp/HAL/inc/sys/alt_llist.h:90-98 | pointer surgery: from a well-formed circle to a well-formed circle with the entry first |
| `AlarmTick.System.Stop` | software/nios2_bsp/HAL/src/alt_tick.c:66-73 | removes exactly that alarm from the order and leaves it self-linked; on an alarm already removed no pointer changes |
| `AlarmTick.System.Unlink` | software/nios2_bsp/HAL/inc/sys/alt_llist.h:105-117 | the four assignments join the neighbours, whatever the position, and are harmless on a self-linked entry |
| `AlarmTick.System.Start` | software/nios2_bsp/HAL/src/alt_alarm_start.c:64-112 | error codes in order and without effect; otherwise the alarm is first in the list with its deadline encoded |
| `FdPool.GetFdResult` | software/nios2_bsp/HAL/src/alt_get_fd.c:77-89 | -EMFILE iff no descriptor is free, else the least free one, at most the new high-water mark |
| `FdPool.InitialInv` | software/nios2_bsp/HAL/src/alt_dev.c:118-149 | the initial table, with alt_max_fd -1, satisfies the invariant |
| `FdPool.LockKeepsInv` | software/nios2_bsp/HAL/src/alt_fd_lock.c:54-75 | the scan that stops below alt_max_fd still keeps: an exclusive descriptor is below every other for its device |
| `FdPool.UnlockKeepsInv` | software/nios2_bsp/HAL/src/alt_fd_unlock.c:52-56 | unlocking keeps the invariant |
| `FdPool.ReleaseKeepsInv` | software/nios2_bsp/HAL/src/alt_release_fd.c:44-51 | releasing keeps the invariant and never frees 0..2 |
| `FdPool.FileLockedIff` | software/nios2_bsp/HAL/src/alt_open.c:79-87 | the scan up to alt_max_fd finds a holder iff there is one |
| `FdPool.OpenSucceeds` | software/nios2_bsp/HAL/src/alt_open.c:105-171 | a successful open takes the least free descriptor, unlocked, marked a device iff it is one, only when nobody holds the device; no other descriptor changes |
| `FdPool.OpenFails` | software/nios2_bsp/HAL/src/alt_open.c:159-166 | a failed open leaves every device pointer and, but for stale flags on the descriptor it tried, every flag word as it was |
| `FdPool.OpenErrors` | software/nios2_bsp/HAL/src/alt_open.c:110-153 | which error, in the order no such name, pool full, device held, driver refused, and iff |
| `FdPool.StepKeepsInv` | software/nios2_bsp/HAL/src/alt_ioctl.c:106-168 | every open, close, ioctl and fcntl keeps the invariant |
| `FdPool.RunKeepsInv` | software/nios2_bsp/HAL/src/alt_close.c:64-101 | so does any run of them |
| `FdPool.BootKeepsInv` | software/nios2_bsp/HAL/src/alt_io_redirect.c:58-94 | boot redirection reaches the invariant whatever the names and drivers do |
| `FdPool.MutualExclusion` | software/nios2_bsp/HAL/src/alt_fd_lock.c:61-69 | after any boot and any run of calls at most one descriptor per device holds it exclusively |
| `FdPool.HeldDeviceGainsNone` | software/nios2_bsp/HAL/src/alt_open.c:64-92 | while a device is held no call gives it another descriptor |
| `FdPool.LockThenUnlock` | software/nios2_bsp/HAL/src/alt_fd_unlock.c:52-56 | lock and unlock together restore the table |
| `FdPool.ExclusiveRequest` | software/nios2_bsp/HAL/src/alt_ioctl.c:127-140 | TIOCEXCL on a device: granted it sets that lock bit and changes nothing else; refused with -EACCES, without effect, iff a descriptor below alt_max_fd shares the device |
| `FdPool.ExclusiveShutsOut` | software/nios2_bsp/HAL/src/alt_ioctl.c:127-140 | once granted, every open of the device fails with -EACCES |
| `FdPool.SharedRequest` | software/nios2_bsp/HAL/src/alt_ioctl.c:127-140 | TIOCNXCL on a device clears that lock bit and changes nothing else |
| `FdPool.SharedLetsIn` | software/nios2_bsp/HAL/src/alt_ioctl.c:127-140 | after the holder's TIOCNXCL the device can be opened again |
| `FdPool.OtherRequest` | software/nios2_bsp/HAL/src/alt_ioctl.c:140-160 | every other request, and any on a filesystem, changes nothing and gives the driver's answer or -ENOTTY |
| `FdPool.OpenedAs` | software/nios2_bsp/HAL/src/alt_open.c:120-160 | the new descriptor has the caller's flags but for the two bookkeeping bits, and the driver's private pointer |
| `FdPool.CloseResult` | software/nios2_bsp/HAL/src/alt_close.c:64-101 | close frees a descriptor above 2 whatever the driver says and returns the driver's error |
| `FdPool.FcntlResult` | software/nios2_bsp/HAL/src/alt_fcntl.c:66-101 | what each command returns, and that only F_SETFL changes anything, two flags of that descriptor |
| `FdPool.RedirectResult` | software/nios2_bsp/HAL/src/alt_io_redirect.c:58-72 | the standard descriptor becomes the new object and the temporary is free again, or nothing changes |
| `FdPool.BootStreams` | software/nios2_bsp/HAL/src/alt_io_redirect.c:85-94 | after boot 1, 0 and 2 are what the first, second and third name opened, or the null device; the others are free |
| `FdPool.OpenThenClose` | software/nios2_bsp/HAL/src/alt_close.c:80-94 | open and close together restore every device pointer and flag word |
| `FdPool.SetThenGetFlags` | software/nios2_bsp/HAL/src/alt_fcntl.c:84-92 | F_GETFL after F_SETFL shows the two settable flags as set, the others as before, never the bookkeeping bits |
| `FdPool.MergedBits` | software/nios2_bsp/HAL/src/alt_fcntl.c:44 | F_SETFL replaces O_APPEND and O_NONBLOCK and no other bit |
| `FdPool.LockAsDocumentedIff` | software/nios2_bsp/HAL/src/alt_fd_lock.c:43-69 | the lock is granted as documented iff the highest descriptor does not share the device or the lock is refused anyway |
| `FdPool.LockGrantedWhileShared` | software/nios2_bsp/HAL/src/alt_fd_lock.c:61-69 | the counterexample: with 3 and 4 open on one device, 3 is locked |
| `FdPool.FcntlKeepsZeroIff` | software/nios2_bsp/HAL/src/alt_fcntl.c:78-92 | free descriptors keep zero flags across F_SETFL iff the descriptor is open or neither settable flag is given |
| `FdPool.OthersKeepZero` | software/nios2_bsp/HAL/src/alt_release_fd.c:44-51 | every other call keeps free descriptors' flags zero, and then a failed open restores devices and flags exactly |
| `FdCalls.Pool.constructor` | software/nios2_bsp/HAL/src/alt_dev.c:131-149 | the pool as initialised |
| `FdCalls.Pool.GetFd` | software/nios2_bsp/HAL/src/alt_get_fd.c:54-101 | the search loop and update in place equal the function on tables |
| `FdCalls.Pool.ReleaseFd` | software/nios2_bsp/HAL/src/alt_release_fd.c:44-51 | likewise |
| `FdCalls.Pool.FileLocked` | software/nios2_bsp/HAL/src/alt_open.c:64-92 | the loop with its unsigned bound marks the descriptor and answers whether another holder exists |
| `FdCalls.Pool.FdLock` | software/nios2_bsp/HAL/src/alt_fd_lock.c:54-75 | the loop with its short bound equals the function on tables |
| `FdCalls.Pool.FdUnlock` | software/nios2_bsp/HAL/src/alt_fd_unlock.c:52-56 | likewise |
| `FdCalls.Pool.Open` | software/nios2_bsp/HAL/src/alt_open.c:105-171 | the step-by-step open with its cleanup equals the function on tables; -1 and errno on failure |
| `FdCalls.Pool.Ioctl` | software/nios2_bsp/HAL/src/alt_ioctl.c:106-168 | routing of TIOCEXCL and TIOCNXCL for devices only; errno set iff negative |
| `FdCalls.Pool.Close` | software/nios2_bsp/HAL/src/alt_close.c:64-101 | the slot is freed even when the driver reports an error |
| `FdCalls.Pool.Fcntl` | software/nios2_bsp/HAL/src/alt_fcntl.c:66-101 | the two-step rewrite of the flag word and the error cases |
| `FdCalls.Pool.OpenFd` | software/nios2_bsp/HAL/src/alt_io_redirect.c:58-72 | copy and release equal the function on tables; no change when the open fails |
| `FdCalls.Pool.IoRedirect` | software/nios2_bsp/HAL/src/alt_io_redirect.c:85-94 | output, input, error in that order |
| `LogPrintf.PrivatePrintf` | software/nios2_bsp/HAL/src/alt_log_printf.c:114-341 | the one-pass machine prints, for every format and every fitting argument list, what cutting into tokens and rendering each token alone gives |
| `LogPrintf.Step` | software/nios2_bsp/HAL/src/alt_log_printf.c:130-340 | one character of any state keeps: output so far plus what the rest will print is the whole |
| `LogPrintf.FieldsGrow` | software/nios2_bsp/HAL/src/alt_log_printf.c:172-199 | the accumulated fields always equal the width and precision marks read off the directive's own text, so none leaks in from another directive |
| `LogPrintf.DirectiveEnds` | software/nios2_bsp/HAL/src/alt_log_printf.c:200-204 | the letter that ends a directive is the first character that is no point, digit or l |
| `LogPrintf.DirectiveCut` | software/nios2_bsp/HAL/src/alt_log_printf.c:130-131 | a directive cut off by the end of the format prints nothing |
| `LogPrintf.Convert` | software/nios2_bsp/HAL/src/alt_log_printf.c:202-335 | each letter renders its token and takes exactly the arguments the token takes |
| `Conversions.IntegerDirective` | software/nios2_bsp/HAL/src/alt_log_printf.c:202-305 | d and i show the signed value in base 10, u the unsigned one, o base 8, x and X base 16 in small and capital letters: sign, shortest numeral, blanks or zeros to the width |
| `Conversions.CharacterDirective` | software/nios2_bsp/HAL/src/alt_log_printf.c:319-322 | c shows the low byte after the blanks of the width |
| `Conversions.StringDirective` | software/nios2_bsp/HAL/src/alt_log_printf.c:324-335 | s shows the string after the blanks of the width |
| `Conversions.UnknownDirective` | software/nios2_bsp/HAL/src/alt_log_printf.c:202-338 | any other letter shows nothing and takes no argument, and the rest of the format is not affected |
| `Conversions.PlainText` | software/nios2_bsp/HAL/src/alt_log_printf.c:134-165 | other characters show themselves, and a double percent sign one |
| `Conversions.WidthOf` | software/nios2_bsp/HAL/src/alt_log_printf.c:155-199 | the digits after the flag are the width in base ten; a point and what follows, or an l, do not count |
| `Conversions.PrintsInteger` | software/nios2_bsp/HAL/src/alt_log_printf.c:114-341 | run on a format of one integer directive, the printer's output is as `IntegerDirective` says |
| `Conversions.PrintsCharacter` | software/nios2_bsp/HAL/src/alt_log_printf.c:114-341 | likewise for c |
| `Conversions.PrintsString` | software/nios2_bsp/HAL/src/alt_log_printf.c:114-341 | likewise for s |
| `LogPrintf.CountDigits` | software/nios2_bsp/HAL/src/alt_log_printf.c:247-255 | p ends as base^(digitCount - 1), within 32 bits, and digitCount is the number of digits |
| `LogPrintf.PrintDigits` | software/nios2_bsp/HAL/src/alt_log_printf.c:281-296 | dividing by descending powers prints the positional digits without a superfluous zero |
| `LogPrintf.PrintInteger` | software/nios2_bsp/HAL/src/alt_log_printf.c:207-297 | sign, padding and digits, the minus before zeros and after blanks |
| `LogPrintf.IntegerReadsBack` | software/nios2_bsp/HAL/src/alt_log_printf.c:238-296 | for every word and base, signed minimum included, sign and digits parse back to the value |
| `LogPrintf.IntegerLength` | software/nios2_bsp/HAL/src/alt_log_printf.c:257-279 | the length is the larger of the width and sign plus digits |
| `LogPrintf.RepChar` | software/nios2_bsp/HAL/src/alt_log_printf.c:106-110 | r copies, none for r <= 0 |
| `Digits.RoundTrip` | software/nios2_bsp/HAL/src/alt_log_printf.c:281-296 | the digits of a number evaluate to the number |
| `Digits.NoLeadingZero` | software/nios2_bsp/HAL/src/alt_log_printf.c:247-255 | a leading zero only for zero itself |
| `Digits.Length` | software/nios2_bsp/HAL/src/alt_log_printf.c:247-255 | a number of n digits is below base^n and, zero apart, at least base^(n-1), so no shorter string would do |
| `Digits.DigitAt` | software/nios2_bsp/HAL/src/alt_log_printf.c:286-295 | the quotient by the place value is the next digit and the remainder is what is left below it |
| `AltPrintf.FirstNibble` | software/nios2_bsp/HAL/src/alt_printf.c:97-100 | the search from bit 28 stops at the highest non-zero digit |
| `AltPrintf.HexDigits` | software/nios2_bsp/HAL/src/alt_printf.c:84-113 | shift and mask prints the positional hexadecimal digits |
| `AltPrintf.Printf` | software/nios2_bsp/HAL/src/alt_printf.c:50-132 | for every format and fitting argument list the loop prints what the pieces of the format print, unknown letters nothing |
| `Conversions.AltDirective` | software/nios2_bsp/HAL/src/alt_printf.c:78-122 | x shows a word in base 16 with small letters, c its low byte, s a string, and each takes its argument |
| `Conversions.AltOther` | software/nios2_bsp/HAL/src/alt_printf.c:72-77 | a percent sign shows itself, any other letter nothing |
| `TimeOfDay.Clock.SetTimeOfDay` | software/nios2_bsp/HAL/src/alt_settod.c:72-96 | the reset time with its 32-bit product; ENOSYS and no change without a clock |
| `TimeOfDay.Clock.GetTimeOfDay` | software/nios2_bsp/HAL/src/alt_gettod.c:71-124 | the borrow and carry loops arrive at the settled time; -ENOTSUP without a clock |
| `TimeOfDay.SettledTotal` | software/nios2_bsp/HAL/src/alt_gettod.c:95-112 | for a total not before the epoch the loops keep it, never clamp, and end with 0 <= usec < 1000000 |
| `TimeOfDay.ElapsedAfterSet` | software/nios2_bsp/HAL/src/alt_gettod.c:91-93 | what a get sees before its loops after a set, wrap and all |
| `TimeOfDay.GetAfterSet` | software/nios2_bsp/HAL/src/alt_gettod.c:91-112 | the time got is the time set plus the elapsed microseconds plus the slip of the 32-bit product |
| `TimeOfDay.SetThenGetIsExact` | software/nios2_bsp/HAL/src/alt_settod.c:82-84 | exact for every tick product below 2^32 |
| `TimeOfDay.GetIsMonotone` | software/nios2_bsp/HAL/src/alt_gettod.c:91-112 | later gets never go back, whether or not the product wrapped at the set |
| `TimeOfDay.GetIs` | software/nios2_bsp/HAL/src/alt_gettod.c:91-112 | what a get returns after any set: time set plus elapsed plus slip, or the epoch if that is negative |
| `TimeOfDay.SetAfterWrapIsOff` | software/nios2_bsp/HAL/src/alt_settod.c:83-84 | the counterexample at 100 ticks a second: 967296 microseconds late |
| `BusySleep.Sleep` | software/nios2_bsp/HAL/src/alt_busy_sleep.c:52-133 | the loops together go round exactly Iterations times |
| `BusySleep.CountdownBne` | software/nios2_bsp/HAL/src/alt_busy_sleep.c:83-93 | the first assembly loop goes round as often as its counter says, and 2^32 times from zero |
| `BusySleep.CountdownBgt` | software/nios2_bsp/HAL/src/alt_busy_sleep.c:119-129 | the last one goes round as often as its counter says, and at least once |
| `BusySleep.Counted` | software/nios2_bsp/HAL/src/alt_busy_sleep.c:74-130 | iterations in all: exactly us times iterations per microsecond if there is no full countdown, one for zero |
| `BusySleep.LastCountFits` | software/nios2_bsp/HAL/src/alt_busy_sleep.c:104-112 | the last countdown never starts above INT_MAX |
| `BusySleep.NeverShort` | software/nios2_bsp/HAL/src/alt_busy_sleep.c:74-130 | never fewer iterations than us times iterations per microsecond |
| `BusySleep.NotTooLongIff` | software/nios2_bsp/HAL/src/alt_busy_sleep.c:74-113 | with a full countdown, over by less than big_loops microseconds iff the remainder is not zero |
| `BusySleep.BoardExample` | software/nios2_bsp/HAL/src/alt_busy_sleep.c:104-112 | the counterexample on this board: 268435455 us ends in a countdown from zero of 2^32 turns |
| `Heap.Allocator.AltSbrk` | software/nios2_bsp/HAL/src/alt_sbrk.c:68-136 | the routine equals the function on values |
| `Heap.Allocator.McountAllocate` | software/nios2_bsp/HAL/src/alt_gmon.c:133-148 | likewise, with the unsigned comparison of a signed size |
| `Heap.HistogramCoversTextIff` | software/nios2_bsp/HAL/src/alt_gmon.c:226-267 | every sampled program counter has a bucket iff the text is a multiple of 32 bytes |
| `Debounce.TimerInRange` | software/nios2/main.c:454-470 | the timer stays in 0..LAYER_TIMEOUT |
| `Debounce.DisableNeedsBadWindow` | software/nios2/main.c:461-466 | after a full timer, off only at the end of a window with bad samples more than LAYER_TIMEOUT ahead |
| `Debounce.EnableNeedsGoodWindow` | software/nios2/main.c:455-460 | after an empty timer, on only at the end of a window with good samples more than LAYER_TIMEOUT ahead |
| `Debounce.OffUntilGood` | software/nios2/main.c:454-468 | in any run, a window of good samples lies between an off and the next on |
| `Debounce.OnUntilBad` | software/nios2/main.c:454-468 | and a window of bad samples between an on and the next off |
| `HotPlug.EdpCounts` | software/nios2/main.c:472-482 | timer, HPD clears and HPD sets after any run, in closed form |
| `HotPlug.OneRetryPerPeriod` | software/nios2/main.c:472-482 | any stretch with EDP_TIMEOUT + 1 link-down iterations holds exactly one clear and one set |
| `Supervisor.Board.GetAdvInfo` | software/nios2/adv7613_regs.h:414-467 | one receiver selected at a time, neither afterwards |
| `Supervisor.Board.ResetFlash` | software/nios2/adv7613_regs.h:470-491 | the reset pulse, then both receivers selected in turn, twice |
| `Supervisor.Board.Poll` | software/nios2/main.c:298-425 | the alpha output follows its input, the heart beat moves on, the receivers are reset iff one reads as powered down, no other output changes, and both receivers end unselected |
| `Supervisor.Board.Receivers` | software/nios2/main.c:424-425 | the writes of the check: the second receiver is read only if the first is not powered down |
| `Supervisor.Board.Iterate` | software/nios2/main.c:289-486 | one pass of the loop: each layer follows the input routed to it, retry, heart beat, alpha output and receiver reset as above, no receiver left selected, all other outputs unchanged |
| `Supervisor.Board.Boot` | software/nios2/main.c:88-287 | from reset to the loop with never both selects, HPD high and the timers zero, and exactly the outputs on that this panel needs |
| `Supervisor.Board.StartReceivers` | software/nios2/main.c:118-256 | the writes that start the video chips, in order |
| `Supervisor.Board.Live` | software/nios2/main.c:88-487 | one life from reset: the panel strapped, and timers, Enable bits, retry and outputs as the inputs of its loop take them from power-up |
| `Supervisor.Board.RunBoard` | software/nios2/main.c:88-489 | over any number of restarts the PIO never holds both receiver selects, every start and every pass writes to it, and the state is the one the last life's inputs lead to |
| `JtagHardware.Device.WriteControl` | software/nios2_bsp/drivers/inc/altera_avalon_jtag_uart_regs.h:44-71 | assumption on the device: a write sets the enable bits and clears AC iff a one is written to it |
| `JtagUart.State.Timeout` | software/nios2_bsp/drivers/src/altera_avalon_jtag_uart_init.c:203-225 | with AC set: clears it at the device and resets host_inactive; else counts up to the ceiling; touches neither ring |
| `JtagUart.State.TakeBytes` | software/nios2_bsp/drivers/src/altera_avalon_jtag_uart_read.c:133-137 | a run of bytes taken under interruption from before its first byte to its publication |
| `AlarmClock.TickAgain` | software/nios2_bsp/HAL/src/alt_tick.c:109-115 | looking at an alarm a second time in the same tick changes nothing and runs nothing |
| `AlarmClock.KeptWaits` | software/nios2_bsp/HAL/src/alt_tick.c:109-115 | a tick before the deadline leaves the callbacks so far exactly on schedule |
| `AlarmClock.KeptRuns` | software/nios2_bsp/HAL/src/alt_tick.c:115-137 | the tick of the deadline adds exactly that callback and moves the deadline by the reply |
| `AlarmClock.KeptEnds` | software/nios2_bsp/HAL/src/alt_tick.c:121-124 | a zero reply completes the schedule with that callback |
| `AlarmTick.Alarm.Repeat` | software/nios2_bsp/HAL/src/alt_tick.c:127-137 | an alarm on schedule that has reached its deadline is on schedule for the next one, reply ticks later |
| `AlarmTick.System.Perform` | software/nios2_bsp/HAL/src/alt_tick.c:117 | a callback as any sequence of starts and stops, of any alarms: the list and its journal change exactly by its deeds, every registered alarm keeps encoding its deadline, and no other alarm's deadline or history changes |
| `AlarmTick.System.Test` | software/nios2_bsp/HAL/src/alt_tick.c:109-116 | an alarm on schedule runs exactly at its deadline, looked at once or twice in a tick |
| `AlarmTick.System.Visit` | software/nios2_bsp/HAL/src/alt_tick.c:102-140 | the callback of an alarm on schedule runs iff its deadline is now; then its next deadline is now plus the reply, or for reply zero it is out of the list; no other deadline changes |
| `AlarmTick.System.Turn` | software/nios2_bsp/HAL/src/alt_tick.c:100-141 | the successor is the one before the callback ran, whatever the callback did to it |
| `AlarmTick.System.TakeTurn` | software/nios2_bsp/HAL/src/alt_tick.c:100-141 | one turn keeps the loop invariant: place in the list, whom it has visited, what each alarm has become, and the record of callbacks |
| `AlarmTick.System.Tick` | software/nios2_bsp/HAL/src/alt_tick.c:87-148 | with callbacks that stop and start any alarms: the loop ends iff no callback leaves its own saved successor unlinked; it visits the old list less those stopped before their turn iff no callback stops its saved successor; every alarm not stopped has run iff it was due and is due again after its reply; the list is the new alarms and the old list less the stopped ones, one circle |
| `Journal.ReplaySplits` | software/nios2_bsp/HAL/inc/sys/alt_llist.h:90-117 | any run of front insertions and removals yields the entries added and not removed, newest first, followed by the surviving old ones in their old order, all different |
| `Rounds.TurnsAndRest` | software/nios2_bsp/HAL/src/alt_tick.c:100-141 | turns taken and turns to come are together the old list less those stopped before their turn |
| `Rounds.UnderwayStep` | software/nios2_bsp/HAL/src/alt_tick.c:100-141 | a walk under way stays so over any visit that does not leave the saved successor out of the list; and then only |
| `Rounds.UnderwayBound` | software/nios2_bsp/HAL/src/alt_tick.c:100-141 | a walk under way is back at the head within l * (n + 1) + l turns, for l alarms at entry and n in all |
| `Rounds.UnderwayEnd` | software/nios2_bsp/HAL/src/alt_tick.c:100-141 | back at the head nothing listed is left unvisited, and the visits were in turn iff no saved successor was stopped |
| `AlarmRun.RegisteredOnSchedule` | software/nios2_bsp/HAL/src/alt_tick.c:96-141 | unfolds the invariants for one registered alarm: between ticks it has run on the schedule that begins at the deadline of its last start |
| `AlarmRun.RanAsEncoded` | software/nios2_bsp/HAL/src/alt_tick.c:96-141 | so a registered alarm has run exactly when the timer fields set at its start, cleared and re-armed on wrapping words, say that it fires |
| `AlarmRun.Run` | software/nios2_bsp/HAL/src/alt_tick.c:87-148 | over any number of ticks with any starts and stops in between: the rounds account for every list operation and callback; the run is cut short only at a walk stranded by a callback or for want of turns, and never if callbacks stop at most their own alarms and there are as many turns as alarms; every alarm not stopped has run exactly at its first deadline and after each interval its callback replied, and every registered one so since its last start |
| `AlarmRun.UpheldTick` | software/nios2_bsp/HAL/src/alt_tick.c:96-141 | what a tick has done to each alarm keeps all of them on schedule, those started, stopped and restarted in it included |
| `AlarmRun.UpheldBetween` | software/nios2_bsp/HAL/src/alt_alarm_start.c:64-112 | and so do starts and stops between ticks |
| `AlarmPlan.EachInTurnIff` | software/nios2_bsp/HAL/src/alt_tick.c:96-141 | the tick routine ends, having visited every alarm present at entry once and in order, none stopped before its turn, iff no callback that is due stops an alarm after its own |
| `AlarmPlan.TakenInTurnIff` | software/nios2_bsp/HAL/src/alt_tick.c:96-141 | the same of any recorded walk, given as many turns as alarms |
| `AlarmPlan.DeedsStop` | software/nios2_bsp/HAL/src/alt_tick.c:66-73 | of the alarms in the list a callback's actions stop exactly those they name, whatever else they start and stop |
| `AlarmPlan.KthVisit` | software/nios2_bsp/HAL/src/alt_tick.c:100-117 | in a walk in turn the k-th visit is the k-th alarm's, and it spares those after it iff it is not due or its callback names none of them |
| `AlarmPlan.StopsNext` | software/nios2_bsp/HAL/src/alt_tick.c:100-141 | if the i-th alarm is due, those before it stop none after them, and its callback leaves its successor out of the list, the tick routine does not end |
| `AlarmPlan.FirstStopsSecond` | software/nios2_bsp/HAL/src/alt_tick.c:100-141 | in any list of two or more alarms, if the first is due and its callback takes out the second and does not put it back, the tick routine does not end |
| `AlarmPlan.StartThenTick` | software/nios2_bsp/HAL/src/alt_alarm_start.c:80-98 | an alarm started on any system runs on the very next tick iff its delay is zero, or is 2^32 - 1 with the clock not about to wrap: the failing delay |
| `AlarmPlan.StopTheNext` | software/nios2_bsp/HAL/src/alt_tick.c:100-141 | the failing input: two alarms, for any number of turns |
| `AltPrintf.BitsValue` | software/nios2_bsp/HAL/src/alt_printf.c:104 | appending hexadecimal digits as nibbles assembles the machine word of the number |
| `AltPrintf.ExtractIsDigit` | software/nios2_bsp/HAL/src/alt_printf.c:104 | masking the machine word with 0xF << 4j and shifting back is the base-16 digit at place j |
| `AltPrintf.HexPrintersAgree` | software/nios2_bsp/HAL/src/alt_printf.c:84-113 | run on %x and any word, both printers give the same characters, which parse back to the word |
| `BitWords.AppendNibble` | software/nios2_bsp/HAL/src/alt_printf.c:104 | as numbers: shifting a word left by four and or-ing a nibble in is times 16 plus the nibble |
| `TimeOfDay.GetClamped` | software/nios2_bsp/HAL/src/alt_gettod.c:95-107 | a total before the epoch is clamped to it |
| `TimeOfDay.SetThenGetExactIff` | software/nios2_bsp/HAL/src/alt_settod.c:83-84 | exact iff the number of times the product wrapped is a multiple of 15625, or the epoch itself was set and is read at once with the clamp hiding the error |
| `TimeOfDay.RateExactIff` | software/nios2_bsp/HAL/src/alt_gettod.c:91-93 | a clock that starts at zero shows the microseconds of its ticks, for every count, iff the rate divides 1000000 |
| `Heap.BrkResult` | software/nios2_bsp/HAL/src/alt_sbrk.c:76-95 | for any increment: fails iff the aligned break plus it falls below zero or passes the limit; the break is aligned either way |
| `Heap.StepKeepsInv` | software/nios2_bsp/HAL/src/alt_gmon.c:133-148 | every proper request, shrinking included, keeps all live blocks in the heap and disjoint, the spare part of the slab untouched, and slab_ptr + slab_size at the end of the newest slab |
| `Heap.AllocationsAreSafe` | software/nios2_bsp/HAL/src/alt_gmon.c:133-148 | over any proper run, the break going up and down: live sbrk blocks word aligned, all blocks inside the heap, and none overlapping but a piece and its slab |
| `Heap.BrkSafeIff` | software/nios2_bsp/HAL/src/alt_sbrk.c:73-95 | whatever sbrk hands out after any increment stays in the heap and off the slabs iff the break was not moved into a slab nor below the start |
| `Heap.PieceSafeIff` | software/nios2_bsp/HAL/src/alt_gmon.c:137-147 | a piece lies in the heap with no later sbrk overlapping it iff it fits a slab and the slab has room or sbrk grants a new one |
| `Supervisor.Board.Layers` | software/nios2/main.c:427-470 | a layer whose switch setting is 2, 4, 8 or 16 moves its timer and Enable bit by input 0, 1, 2 or 3 alone, with any other setting not at all; timer, Enable bit and record of writes step by the debouncer |
| `Supervisor.Board.HotPlugRetry` | software/nios2/main.c:472-482 | timer and HPD writes are the retry's, and on a 15-inch panel HPD is low iff the timer is at EDP_TIMEOUT |
| `Supervisor.Board.RunLoop` | software/nios2/main.c:289-486 | after any number of passes timers, Enable bits, the writes to them and the HPD clears and sets are those of the debouncer and the retry on the inputs seen |
| `Supervisor.Board.LayerWindows` | software/nios2/main.c:454-468 | in any run of the loop a window of good samples lies between an off and the next on, and of bad ones between an on and the next off |
| `Supervisor.Board.HpdPeriod` | software/nios2/main.c:472-482 | in any run of the loop on a 15-inch panel, EDP_TIMEOUT + 1 link-down passes clear HPD once and set it once |

## Left out

- JtagUart.State.Write, JtagUart.State.Read, JtagUart.State.Close: termination of their waits, which depends on the host; the contracts speak of every finite prefix instead.
- JtagHardware.Device.WriteControl: control and enable words are records of their bits, without reserved bits.
- AlarmTick.System.Perform: a delay of 2^32 - 1, for which `AlarmPlan.StartThenTick` and `AlarmClock.FirstCallbackExactIff` give the condition; a callback that starts its own alarm, whose fields the tick routine then changes again; starting an alarm that is already registered is outside the original's contract too. Actions on an alarm that would have no effect, as stopping one that is not registered, are skipped.
- AlarmRun.Run: a run ends at a tick whose loop does not end within the number of turns given.
- FdPool.Open: names are looked up elsewhere; the call gets the registered object found, if any, and the results of driver and filesystem callbacks as parameters. The device's callbacks do not call back into the pool. ALT_MAX_FD is 8, as software/nios2_bsp/system.h:201 sets it.
- FdPool.Fcntl: the values of O_APPEND, O_NONBLOCK and the error numbers are those of the C library, whose headers are not part of this model.
- LogPrintf.PrivatePrintf: field widths are unbounded integers, so a width beyond 2^31 does not wrap; waiting for the output register and `alt_log_printf_proc` around it are not modelled.
- AltPrintf.Extract: the eight shift amounts are spelled out; the sign of `0xF << 28` as a C int does not show in the masked word.
- TimeOfDay.GetIsMonotone: assumes no overflow of tv_sec and no wrap of the tick counter between the calls.
- BusySleep.Sleep: time is counted in rounds of the assembly loops; frequencies below one iteration per microsecond divide by zero in the original and are excluded.
- Heap.AllocationsAreSafe: the heap limit is at most 0x7FFFFFF0, so that no 32-bit sum of the break and an increment wraps. The stack-limit bookkeeping of `sbrk` under ALT_STACK_CHECK and ALT_MAX_HEAP_BYTES, and the arc lists of `__mcount_record`, are not modelled.
- Supervisor.Board.Iterate: copies between shared memory and the video cores, I2C transfers, delays and the read of the ADV7181 are left out, as is the mixer's third layer, which is switched without debouncing.
- Supervisor.Board.RunBoard: the conditions that end a life are part of its input; other code writing the PIO is assumed absent.
- The small, direct and semihosting drivers, and the uC/OS-II semaphores and flags, which are no-ops without an operating system. This board's generated makefiles select the small JTAG driver; the model is of the fast one.
- Register tables, video mode tables, the C++ video wrappers, boot code, cache maintenance and the unsupported system calls, which have no state worth a proof.
