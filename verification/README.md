# microbian, modelled in Dafny

microbian is a small embedded operating system for the BBC micro:bit. It
has a message-passing microkernel with a fixed table of 32 process
descriptors and one ready queue per priority (handler, high and low), kept
in FIFO order or, in the scheduling build, in order of score.
Processes communicate by synchronous rendezvous:

- `send` and `receive` block until the partner is ready;
- `sendrec` sends a request and then waits for the REPLY;
- hardware interrupts arrive as INTERRUPT messages from the pseudo-process
  HARDWARE, and are remembered in a `pending` flag while the handler is busy;
- a receive may carry a timeout, and the timer task's `tick` system call
  drives it.

Around the kernel sit:

- the C library's byte routines;
- a serial driver that edits an input line in a ring buffer;
- the register bit-field macros of the two micro:bit boards, and their LED
  image encodings;
- two small algorithms from the example programs: button debouncing and a
  primality test.

The model is a set of Dafny modules that follows that structure.

- **Kernel** (`proc.dfy`, `kernel.dfy`): the kernel is one immutable
  `Kernel` record. It holds:
  - the descriptor table `procs`;
  - the ready queues, as sequences of pids instead of the intrusive `next`
    links;
  - the running process and the idle process;
  - the timeout table with `ticks` and `nextTime`;
  - the interrupt handler table;
  - the heap bounds.

  Every kernel routine is a function from a record to a record.
  - A `panic` (or a failed `assert`) becomes the outcome `Fatal(fault)`.
  - Every ready queue and waiting list is also viewed as a multiset of pids
    (`Ready`, `Waiting`). Contracts state how each step changes those
    multisets.
- **Timers** (`timers.dfy`): `set_timeout`, `cancel_timeout` and `mini_tick`
  on the relative-time timeout table.
- **Syscalls** (`syscalls.dfy`): the system calls and the dispatcher
  `system_call`. Each call that ends in `choose_proc` is split into a step
  that carries the contract, followed by the choice of the next process.
- **Invariant** (`invariant.dfy`): the kernel invariant `Inv`, and the proof
  that every system call, interrupt and tick preserves it:
  - a descriptor sits on at most one queue, and which queue follows from its
    state;
  - only a RECEIVING process has a timer;
  - a blocked sender has a message buffer;
  - the idle process alone has the idle priority;
  - every process on a ready queue has that queue's priority;
  - the timeout table lists exactly the processes with a timer.
- **Sched** (`sched.dfy`): the score-ordered `make_ready` of the scheduling
  build, over an abstract score per process.
- **Boot** (`boot.dfy`): `create_proc`, `start` and `__start`, which
  establish the invariant.
- **Mem** (`mem.dfy`): `memcpy`, `memmove`, `memset` and `memcmp`, as
  methods with loops over a byte sequence.
- **Serial** (`serial.dfy`): the line-editing input ring, the output ring,
  and the bookkeeping of the serial task.
- **Bits**, **Nvic**, **Leds** (`bits.dfy`, `nvic.dfy`, `leds.dfy`): 32-bit
  register words as 32 booleans, the field and byte macros, `irq_priority`,
  and the LED `IMAGE` macros of both boards.
- **Debounce**, **Prime** (`debounce.dfy`, `prime.dfy`): the button task of
  the timeout example, and the primality test of the valentine example.

The header that defines the message-type numbers (microbian.h) is not part
of this model. ANY, INTERRUPT, REPLY, TIMEOUT, PING and REGISTER are given
values in `messages.dfy`, and the proofs rely only on two facts about them:
ANY is negative, and the others are distinct 16-bit values.

The build enables both the timeout and the scheduling options. The kernel
uses FIFO insertion into the ready queues as its baseline. The scored
insertion is modelled separately, in Sched.

The comment in `make_ready` says a process is inserted "behind" the first
queued process whose score is at least its own. The code inserts it in
front of that process. The model follows the code (`Sched.ScoredTies`).

## Model

| member | source | states |
|---|---|---|
| Proc.RoundUp8 | process.c:67 | ROUNDUP(x, 8) is the least multiple of 8 not below x |
| Proc.Sbrk | process.c:70-79 | sbrk fails with "out of memory" exactly when the rounded request exceeds the space above the rounded hbot. Otherwise it returns the 8-aligned old hbot, raises hbot past the block, and keeps hbot <= htop |
| Proc.NewProc | process.c:82-87 | new_proc fails exactly when fewer than sizeof(struct _proc) bytes remain, compared unsigned. Otherwise htop drops by exactly one descriptor, and the descriptor sits at the new htop |
| Proc.CString | process.c:32 | the string strncpy reads from a name: the longest prefix without a NUL, ending where the first NUL is |
| Proc.NameField | process.c:32-33 | the 16-byte name field always ends in a NUL |
| Proc.NameFieldReadsBack | process.c:32-33 | reading the name field back as a C string gives the name, truncated to 15 characters |
| Proc.CStringOfPadded | process.c:32-33 | a NUL-free string padded with NULs reads back as itself |
| Proc.NewDesc | process.c:31-46 | a fresh descriptor is ACTIVE at P_LOW, with an empty waiting list, no pending interrupt, filter ANY, no timer and no message buffer, and the given pid, stack and size; its name field is NameField of the name, the name cut to 15 characters and NUL padded to 16 |
| Proc.BlankStack | process.c:25-28 | every word of [stack, stack + stksize) holds BLANK afterwards, and every other word of memory is unchanged |
| Proc.BlankedBase | microbian.c:736-737 | a freshly blanked stack passes the overflow check on its base word |
| Proc.Score | process.c:9 | score is defined exactly when n_calls > 0, and is truncated to an unsigned long. incl/process.h:74 declares score as returning `unsigned long long`, but the definition at process.c:9 returns `unsigned long`; the model follows the definition, modulo 2^32 |
| Proc.ScoreIsAverage | process.c:9 | for counts below 2^32, score is the average running time per call: score * n_calls <= n_ticks < (score + 1) * n_calls |
| Messages.ToU16 | incl/process.h:13-15 | storing an int into the 16-bit type or sender field keeps it modulo 2^16, and keeps values that fit |
| Messages.MessageOf | microbian.c:826-830 | the message send_msg builds carries the requested type, reduced to 16 bits |
| Kernel.MakeReady | microbian.c:141-187 | make_ready does nothing to a process of the idle priority. Any other process becomes ACTIVE and joins the tail of its priority's queue (FIFO build). The multiset of ready pids grows by exactly that pid, and no waiting list changes |
| Kernel.ChooseProc | microbian.c:201-223 | choose_proc runs the head of the lowest-numbered non-empty ready queue, and exactly that pid leaves the ready multiset. When every queue is empty, the idle process runs and the queues are untouched |
| Kernel.FirstNonEmpty | microbian.c:206-216 | the first non-empty queue at or after a priority: every queue before it is empty, and None means all are empty |
| Kernel.QueueSender | microbian.c:351-361 | the caller joins the tail of the receiver's waiting list, which gains exactly that pid; nothing else changes |
| Kernel.FirstMatch | microbian.c:367-378 | the position of the first waiter whose message matches, at or after a given one. No earlier waiter matches, and None means none matches |
| Kernel.FindSender | microbian.c:364-381 | find_sender takes the earliest waiter whose message type matches (any waiter, for ANY). Exactly that pid leaves the list, and the rest keep their order. With no match nothing changes |
| Kernel.AwaitReply | microbian.c:384-395 | with a REPLY already queued, the reply is delivered and both processes are made ready. Otherwise the caller becomes RECEIVING with filter REPLY and nothing else changes. Either way the caller ends awaiting its reply or holding it (AwaitingReply), and no process changes but the caller and the waiter it releases |
| Kernel.FindDest | microbian.c:397-409 | find_dest accepts exactly the pids in [0, os_nprocs) that are not DEAD. Out of range is fatal as a non-existent process; DEAD is fatal as a dead process |
| Timers.SetTimeout | microbian.c:266-274 | set_timeout fails an assertion exactly when the table is full or the caller already has a timer. Otherwise the caller is due at ticks + ms and is appended to the table, and next_time becomes the smaller of its old value and the new due time |
| Timers.IndexOf | microbian.c:282-287 | the first position of a pid in the table at or after a given one, or None when it does not occur |
| Timers.CancelTimeout | microbian.c:277-290 | with no timer, the assertion fails; with a timer but no table entry, the kernel panics. Otherwise the timer is cleared and the table loses exactly one entry for the process, keeping no duplicates |
| Timers.SwapOut | microbian.c:284-285 | overwriting entry i with the last entry and dropping the last removes exactly entry i from the multiset of the table |
| Timers.Surviving | microbian.c:304-320 | the timers a scan keeps are exactly those whose due time is not below ticks |
| Timers.FireEffect | microbian.c:316-319 | a timer that fires is cleared, TIMEOUT from HARDWARE lands in the process's buffer, and the process is made ready |
| Timers.MinTimeout | microbian.c:310-311 | the earliest due time of a list of timed processes: a lower bound attained by one of them, None only for the empty list |
| Timers.ScanCorrect | microbian.c:301-321 | the scan of a duplicate-free table keeps the survivors in order. Each survivor is moved to the new time scale (less ticks + ms), each expired timer is cleared, other timers are untouched, and next_time is the earliest surviving due time |
| Timers.MiniTick | microbian.c:293-325 | with no timer set, mini_tick does nothing; before next_time has been passed, only ticks grows by ms. Otherwise it can fail only an assertion, and a process outside the timeout table is left as it was |
| Timers.MiniTickScans | microbian.c:293-325 | once ticks has passed next_time, mini_tick scans the table and restarts ticks from 0 |
| Timers.SetTimeoutKeepsTimers | microbian.c:266-274 | set_timeout keeps the timer invariant: the table lists each timed process once, and next_time bounds every due time |
| Timers.CancelTimeoutKeepsTimers | microbian.c:277-290 | cancel_timeout keeps the timer invariant |
| Timers.MiniTickKeepsTimers | microbian.c:293-325 | mini_tick keeps the timer invariant, and under it never fails |
| Timers.TickMeaning | microbian.c:239-252 | a tick of ms fires a set timer exactly when its due time was already passed before this tick, so no timer fires early. A timer that does not fire has exactly ms less remaining |
| Syscalls.CancelIfSet | microbian.c:419-422 | the timer cancellation of mini_send: a receiver without a timer is left as it is. One with a timer loses it and its table entry, which fails only if the table has no entry for it |
| Syscalls.Handoff | microbian.c:418-424 | the handoff to a receiver that accepts fails only when cancellation finds no table entry |
| Syscalls.HandoffEffect | microbian.c:342-348 | after a handoff, the receiver holds the sender's message stamped with the sender's pid (when it passed a buffer) and is ACTIVE on its ready queue. Its timer is gone when it was cancelled, and no other descriptor or waiting list changed |
| Syscalls.SetBuf | microbian.c:416 | every call first records its message buffer in the caller's descriptor; nothing else changes |
| Syscalls.SendStep | microbian.c:412-432 | mini_send to a pid find_dest refuses fails with find_dest's fault. To a live process, it can fail only in the timer cancellation, and it changes no process but the caller and the destination |
| Syscalls.Enqueue | microbian.c:427-429 | a send that must wait leaves the caller SENDING (or SENDREC) at the tail of the receiver's waiting list, and changes nothing else |
| Syscalls.TakeInterrupt | microbian.c:442-446 | a pending interrupt is consumed: the flag is cleared and INTERRUPT from HARDWARE lands in the caller's buffer, with no other process touched |
| Syscalls.Collect | microbian.c:449-470 | a receiver collects a found waiter's message; this fails ("bad state in receive") exactly when the waiter is neither SENDING nor SENDREC. Otherwise the receiver holds the message stamped with the sender's pid and is made ready, a SENDING sender is made ready, a SENDREC sender awaits its reply or holds it, and no process changes but these two and the sender's own waiters |
| Syscalls.Block | microbian.c:480-487 | a receive that must wait fails an assertion only when it sets a timer into a full table, or for a caller that already has one. Otherwise the caller becomes RECEIVING with the requested type as its filter, gets a timer due timeout ms later exactly when timeout > 0, and no other process changes |
| Syscalls.Sender | microbian.c:449-452 | a receive for INTERRUPT never looks at the waiting list |
| Syscalls.Receive | microbian.c:435-489 | all four outcomes of mini_receive. A pending interrupt satisfies a receive of ANY or INTERRUPT at once. Otherwise the earliest matching waiter is collected as Collect states, and the call fails exactly when that waiter is in a bad state. With no such waiter, timeout 0 leaves TIMEOUT from HARDWARE in the caller's buffer at once, and any other timeout blocks the caller RECEIVING with that filter, timed exactly when timeout > 0. No process off every waiting list changes but the caller |
| Syscalls.SendRecStep | microbian.c:492-511 | mini_sendrec to a refused pid fails with find_dest's fault, and a REPLY-typed request is fatal; otherwise only the corrected version's timer cancellation can fail. A receiver that accepts holds the request stamped with the caller's pid and is made ready, and the caller awaits its reply or already holds it (SendRecDelivered). A receiver that does not accept gets the caller, now SENDREC, at the tail of its waiting list. No other process off every waiting list changes |
| Syscalls.InterruptWith | microbian.c:539-554 | interrupt to a refused pid fails with find_dest's fault; otherwise only the corrected version's timer cancellation can fail. A handler that accepts holds INTERRUPT from HARDWARE, is made ready (Ready gains it), and loses its timer only in the corrected version, and a reschedule is requested exactly when the current process's priority is below handler priority. A handler that does not accept only has pending set. No other process changes |
| Syscalls.InterruptsCoalesce | microbian.c:549-552 | while the handler does not accept INTERRUPT, an interrupt only sets pending, and a second one before a receive changes nothing: they coalesce into one |
| Syscalls.DefaultHandler | microbian.c:562-567 | an interrupt with no connected handler, or a negative number, is fatal; any other is sent to its handler as interrupt does |
| Syscalls.Connect | microbian.c:526-530 | connect fails exactly for a CPU exception (irq < 0). Otherwise the caller becomes the handler of irq and runs at P_HANDLER, and no other interrupt's handler changes |
| Syscalls.SetPriority | microbian.c:533-536 | priority fails exactly outside [P_HANDLER, P_LOW]. Otherwise it sets the caller's priority |
| Syscalls.CountTick | microbian.c:775-777 | tick adds one to the caller's 64-bit n_ticks, wrapping at 2^64, and changes nothing else |
| Syscalls.SystemCall | microbian.c:727-797 | a stack whose base word is not BLANK is fatal (stack overflow), an unknown operation is fatal, and dump changes no kernel state |
| Invariant.ChooseKeepsInv | microbian.c:201-223 | from a state with nobody running and every queue consistent, choose_proc establishes the invariant with the chosen process running |
| Invariant.ChooseRunsMostUrgent | microbian.c:201-223 | under the invariant, no ACTIVE process has a more urgent priority than the one choose_proc runs, and it runs the idle process exactly when no process is ACTIVE |
| Invariant.FirePlaced | microbian.c:316-319 | a process whose timer fires joins the ready queue of its own priority, so every queued process still has its queue's priority |
| Invariant.SendKeepsInv | microbian.c:412-432 | mini_send keeps every process on the queue its state calls for, up to the choice of the next process |
| Invariant.EnqueueKeeps | microbian.c:351-361 | a blocked sender sits on exactly one waiting list |
| Invariant.MakeReadyKeeps | microbian.c:141-187 | make_ready puts a process that was on no queue onto exactly one ready queue |
| Invariant.MakeReadyPlaced | microbian.c:141-187 | make_ready puts the process on the queue of its own priority, so every queued process still has its queue's priority |
| Invariant.FindSenderKeeps | microbian.c:364-381 | the sender find_sender unlinks was a blocked sender on exactly that list, and is now on no queue |
| Invariant.DeliverKeeps | microbian.c:342-348 | deliver leaves the receiver ACTIVE on exactly one ready queue and every other queue as it was |
| Invariant.AwaitReplyKeeps | microbian.c:384-395 | await_reply leaves the caller either on a ready queue or RECEIVING on none, with the replier released |
| Invariant.ReceiveKeepsInv | microbian.c:435-489 | mini_receive keeps the invariant, in each of its four outcomes |
| Invariant.SendRecKeepsInv | microbian.c:492-511 | the corrected mini_sendrec keeps the invariant up to choose_proc (PreChoose): the caller is on no ready queue and the woken receiver is on exactly one |
| Invariant.InterruptKeepsInv | microbian.c:539-554 | the corrected interrupt keeps the invariant, whichever process it interrupts |
| Invariant.DefaultHandlerKeepsInv | microbian.c:562-567 | the default handler, which interrupts through the corrected interrupt, keeps the invariant |
| Invariant.ConnectKeepsInv | microbian.c:526-530 | connect keeps the invariant |
| Invariant.SetPriorityKeepsInv | microbian.c:533-536 | priority keeps the invariant |
| Invariant.YieldKeepsInv | microbian.c:740-743 | yield re-queues the caller (the idle process on no queue) and chooses again, keeping the invariant |
| Invariant.ExitKeepsInv | microbian.c:762-765 | exit leaves the caller DEAD, on no queue, and keeps the invariant |
| Invariant.CxtSwitchKeepsInv | microbian.c:799-804 | the context switch after a preemption request keeps the invariant |
| Invariant.TickKeepsInv | microbian.c:774-783 | tick never fails under the invariant, and keeps it, timers that fire included |
| Invariant.SystemCallKeepsInv | microbian.c:727-797 | every system call that does not fail keeps the invariant, with sendrec dispatched to the corrected mini_sendrec |
| Invariant.SystemCallFaults | microbian.c:727-797 | under the invariant, a system call fails only for a fault of the caller's: stack overflow, unknown operation, bad destination, or a REPLY-typed sendrec |
| Invariant.SendNeverFails | microbian.c:412-432 | under the invariant, mini_send to a live process never panics |
| Invariant.SendRecNeverFails | microbian.c:492-511 | under the invariant, the corrected mini_sendrec to a live process never panics |
| Invariant.ReceiveNeverFails | microbian.c:435-489 | under the invariant, mini_receive never panics: waiters are always SENDING or SENDREC, the caller has no timer, and the timeout table has room |
| Invariant.TableHasRoom | microbian.c:267 | a duplicate-free timeout table without the caller's pid has fewer than NPROCS entries |
| Invariant.DistinctBound | incl/process.h:64 | a duplicate-free list of pids below n has at most n entries |
| Invariant.ExitThenRefused | microbian.c:762-765 | after exit, find_dest refuses the pid as dead, so a send to it from the next process is fatal |
| Invariant.DeadStaysDead | microbian.c:762-765 | a DEAD process is left exactly as it is by every system call, default_handler, tick and cxt_switch that does not panic |
| Invariant.StepOnce | microbian.c:727-797 | each step of the running system (a system call, connect or priority of the running process, an interrupt, or a context switch) keeps the invariant |
| Invariant.Run | microbian.c:727-797 | any sequence of such steps that does not panic keeps the invariant |
| Invariant.DeadStaysDeadRun | microbian.c:762-765 | no sequence of steps revives a DEAD process or changes its descriptor |
| Invariant.ExitThenAlwaysRefused | microbian.c:762-765 | after exit, find_dest refuses the pid as dead after any sequence of later steps |
| Invariant.SendRecAsWrittenKeepsTimer | microbian.c:500-503 | as written, mini_sendrec delivers to a receiver with a timer without cancelling it. The receiver ends ACTIVE on a ready queue with its timer set, and the invariant is broken |
| Invariant.InterruptAsWrittenKeepsTimer | microbian.c:542-545 | as written, interrupt wakes a handler with a timer without cancelling it, and the invariant is broken |
| Invariant.StaleTimerQueuesTwice | microbian.c:316-319 | a stale timer that fires for a process already on its ready queue applies make_ready to a queued process, which the queue view counts twice |
| Sched.FirstNotBelow | microbian.c:167-172 | the walk down a queue stops at the first process whose score is at least the newcomer's; every process before it scores less |
| Sched.ScoredSlot | microbian.c:157-180 | the newcomer goes at the tail exactly when the queue is empty or it scores at least the tail. Otherwise it goes in front of the first process scoring at least as much |
| Sched.InsertAt | microbian.c:174-179 | linking p in at a position keeps the processes before and after it in order, and adds exactly p |
| Sched.ScoredInsert | microbian.c:157-180 | the scored insertion adds exactly the newcomer, and keeps a score-sorted queue sorted |
| Sched.ScoredTies | microbian.c:157-180 | a newcomer scoring at least the tail is appended; otherwise it goes in front of every process with its own score (the code, not the "behind" of its comment) |
| Sched.MakeReadyScored | microbian.c:141-187 | the scored make_ready does nothing at the idle priority. It readies any other process with the same bag effect as the FIFO build, inserting by score |
| Sched.ScoredKeepsSorted | microbian.c:157-180 | the scored make_ready keeps every ready queue sorted by score |
| Sched.ChooseRunsLightest | microbian.c:201-223 | with sorted queues, choose_proc runs a process of least score on the first non-empty ready queue, and the queues stay sorted |
| Sched.ChooseRunsUrgentLightest | microbian.c:201-223 | under the invariant with sorted queues, every ACTIVE process has a less urgent priority than the one choose_proc runs, or the same priority and a score no smaller |
| Sched.ScoredPlaced | microbian.c:141-187 | the scored make_ready puts the process on the queue of its own priority, so every queued process still has its queue's priority |
| Sched.ScoredMakeReadyKeeps | microbian.c:141-187 | the scored make_ready keeps the queue invariant, as the FIFO one does |
| Boot.Blank | microbian.c:73-74 | an unused table slot is DEAD, with nobody waiting on it, no timer, and a priority other than the idle one |
| Boot.Initial | microbian.c:73-77 | the kernel before startup has no processes and nothing running |
| Boot.CreateProc | process.c:12-49 | create_proc fails exactly when the table is full or memory runs out. Otherwise the new pid is the old os_nprocs, the count grows by one, only that table slot changes, it holds a fresh descriptor, and its stack lies below the descriptors |
| Boot.Start | microbian.c:641-659 | start rounds the stack size up to 8, is fatal after the scheduler has started, and otherwise makes the new process ready at the tail of the P_LOW queue |
| Boot.StartAll | microbian.c:698 | starting the processes of init fails only with a fault of start: a full table, lack of memory, or a start after startup |
| Boot.StartAllBeforeScheduler | microbian.c:644-645 | during init nothing runs yet, so start never reports "called after scheduler startup" |
| Boot.StartAllKeeps | microbian.c:641-659 | starting the processes of init keeps the startup invariant, adds exactly one process per request, and keeps the idle process |
| Boot.BootEstablishesInv | microbian.c:680-703 | __start establishes the kernel invariant with the idle process, pid 0, running and every started process ready |
| Boot.BootCapacity | process.c:18-19 | starting NPROCS or more processes besides the idle one always fails |
| Mem.Memcpy | ubit-v1/startup.c:23-29 | memcpy returns dest; for regions that do not overlap harmfully, dest[0..n) equals src[0..n); no byte outside dest[0..n) changes |
| Mem.CopyForward | ubit-v1/startup.c:38 | the forward copy loop copies src to dest byte by byte whenever dest does not lie inside the source after its start |
| Mem.CopyBackward | ubit-v1/startup.c:40-41 | the backward copy loop copies the original source correctly when dest lies above src |
| Mem.Memmove | ubit-v1/startup.c:32-43 | memmove returns dest, and dest[0..n) equals the original src[0..n) even when the regions overlap; nothing else changes |
| Mem.Memset | ubit-v1/startup.c:46-51 | memset sets exactly n bytes to x mod 256, returns dest, and touches nothing else |
| Mem.CompareFirstDifference | ubit-v1/startup.c:54-62 | the comparison is 0 exactly for equal byte strings. Otherwise it is -1 or 1 by the first differing byte, compared unsigned |
| Mem.Memcmp | ubit-v1/startup.c:54-62 | memcmp returns 0 for n <= 0, and otherwise the comparison of the first n bytes |
| Mem.MemcmpZero | ubit-v1/startup.c:54-62 | memcmp of n bytes is 0 exactly when they are equal |
| Serial.Wrap | serial.c:30 | wrap keeps indices in [0, NBUF), and brings back into range an index one buffer length off |
| Serial.Initial | serial.c:33-47 | at startup both rings are empty, nobody waits to read, and the transmitter is idle |
| Serial.Echo | serial.c:50-55 | echo appends the byte to the output queue unless the queue is full, when the byte is dropped; input is untouched |
| Serial.Rubout | serial.c:62-71 | backspace or DEL removes the last character of the current line only when there is one, and echoes "\b \b"; committed input is never removed |
| Serial.Newline | serial.c:73-82 | CR or LF, when there is room, commits the line with a '\n' added and echoes "\r\n"; without room nothing changes |
| Serial.AddChar | serial.c:93-98 | a printable character is appended to the current line and echoed only while the ring has room |
| Serial.Keypress | serial.c:60-100 | keypress dispatches backspace and DEL, CR and LF, and printable characters as above, and ignores control characters and bytes from 0177 up |
| Serial.ServeReader | serial.c:149-156 | a waiting reader gets the oldest available character only when one is available, consuming exactly it and clearing the reader |
| Serial.StartTx | serial.c:158-170 | one output byte, the oldest, is taken only when the transmitter is idle and the queue is not empty, and the transmitter becomes busy |
| Serial.Interrupt | serial.c:110-124 | a serial interrupt gives a received byte to keypress and leaves the buffers alone otherwise; it marks the transmitter idle when it has finished, and keeps the ring invariant |
| Serial.Getc | serial.c:255-259 | a GETC while another client waits is refused; otherwise the client becomes the reader and the buffers are untouched |
| Serial.QueueChar | serial.c:174-185 | queue_char enqueues exactly one byte at the tail once the output queue is not full |
| Serial.CollapseExpand | serial.c:263-264 | the CR inserted before each LF can be removed again to give back the text |
| Serial.ExpandCRBeforeLF | serial.c:272-273 | in the expanded text every LF is preceded by CR |
| Serial.QueueAll | serial.c:174-185 | queueing a sequence of bytes adds a prefix of it to the output queue, stopping only when the queue is full |
| Serial.PutBuf | serial.c:267-276 | PUTBUF queues a prefix of the text with CR before every LF, stopping only at a full queue |
| Bits.Bit | ubit-v2/hardware.h:9 | BIT(i) has exactly bit i set |
| Bits.BitValue | ubit-v2/hardware.h:9 | BIT(i) has the value 2^i |
| Bits.GetBit | ubit-v2/hardware.h:11 | GET_BIT is 1 exactly when BIT(n) lies within the register |
| Bits.Mask0 | ubit-v2/hardware.h:34 | __MASK0(wid) has exactly the low wid bits set |
| Bits.Mask0Value | ubit-v2/hardware.h:34 | __MASK0(wid) = 2^wid - 1 for 1 <= wid <= 32 |
| Bits.Mask | ubit-v2/hardware.h:32 | MASK(pos, wid) has exactly bits pos .. pos + wid - 1 set |
| Bits.Field | ubit-v2/hardware.h:29 | FIELD(f, v) has no bits outside MASK(f), and holds the low bits of v in the field |
| Bits.SetField | ubit-v2/hardware.h:21-23 | SET_FIELD changes no bit outside MASK(f), and puts the low bits of v inside it |
| Bits.GetField | ubit-v2/hardware.h:25-26 | GET_FIELD lies within __MASK0(wid) and reads the field's bits |
| Bits.GetFieldValue | ubit-v2/hardware.h:25-26 | the value GET_FIELD reads is below 2^wid |
| Bits.GetSetField | ubit-v2/hardware.h:21-26 | GET_FIELD(SET_FIELD(reg, f, v), f) == v & __MASK0(wid) |
| Bits.SetGetField | ubit-v1/hardware.h:22-27 | writing back the field just read leaves the register unchanged |
| Bits.SetFieldTwice | ubit-v1/hardware.h:22-24 | a second SET_FIELD of the same field overrides the first |
| Bits.GetByte | ubit-v2/hardware.h:13 | GET_BYTE lies within 0xff and reads byte n |
| Bits.SetByte | ubit-v2/hardware.h:14-15 | SET_BYTE with a simple byte index changes only byte n, and puts the low byte of v there |
| Bits.ByteIsField | ubit-v1/hardware.h:14-16 | GET_BYTE and SET_BYTE are GET_FIELD and SET_FIELD of the field (8n, 8) |
| Bits.GetSetByte | ubit-v1/hardware.h:14-16 | GET_BYTE(SET_BYTE(reg, n, v), n) == v & 0xff, and the other bytes are unchanged, for n in [0, 3] |
| Bits.DevPin | ubit-v2/hardware.h:41-43 | PORT(DEVPIN(p, i)) == p and PIN(DEVPIN(p, i)) == i for 0 <= i < 32 |
| Bits.Pin | ubit-v2/hardware.h:43 | PIN is below 32 |
| Nvic.IrqPrioritySets | ubit-v1/startup.c:92-99 | after the intended update, the interrupt's priority byte reads back as prio & 0xff |
| Nvic.IrqPriorityFrame | ubit-v1/startup.c:92-99 | the intended update leaves the priority of every other interrupt unchanged |
| Nvic.AsWrittenNoop | ubit-v1/startup.c:96-98 | as written, with SET_BYTE expanded textually, irq_priority changes no register at all for any interrupt other than 0 |
| Nvic.AsWrittenCounterexample | ubit-v1/startup.c:96-98 | with all registers 0, irq_priority(1, 0xc0) as written leaves the priority at 0, where the intended update sets it to 0xc0 |
| Leds.LedMasksV2Literal | ubit-v2/hardware.h:940-941 | the bit sets used for LED_MASK0 and LED_MASK1 are the constants 0xd1688800 and 0x20 |
| Leds.ImageV2InMasks | ubit-v2/hardware.h:945-957 | each IMAGE row's first word lies within LED_MASK0 and its second within LED_MASK1 |
| Leds.ImageV2RowPins | ubit-v2/hardware.h:945-957 | each IMAGE row word has its own row bit set and no other row's bit |
| Leds.ImageV2Columns | ubit-v2/hardware.h:945-957 | a LED is lit exactly when its column bit is clear in its row's words |
| Leds.LedMaskV1Literal | ubit-v1/hardware.h:730 | the bit set used for LED_MASK is the constant 0xfff0 |
| Leds.ColsV1Display | ubit-v1/hardware.h:721-728 | IMAGE's argument order places each of the 25 LEDs at its row and column of the 3 x 9 matrix; row 2 has no LEDs in columns 8 and 9 |
| Leds.ImageV1Pins | ubit-v1/hardware.h:717-729 | every _ROW word lies within LED_MASK, with its own row bit set and no other row's |
| Leds.ImageV1Display | ubit-v1/hardware.h:717-729 | each LED is lit exactly when its column bit is clear in its row's word, and the unused positions are dark |
| Debounce.Initial | examples/ex-timeout.c:22-25 | no client is registered, and every button starts with history 0 and state 0 |
| Debounce.ShiftIsMasked | examples/ex-timeout.c:35 | the history update is (history << 1 \| x) & 0x7 |
| Debounce.Step | examples/ex-timeout.c:35-44 | history stays in [0, 7]; the state falls exactly when it was up and the history is 0; it is up afterwards exactly when it was and the history is not 0, or it was down and the history is 7; a press is reported exactly on a fall |
| Debounce.StepNeedsThreeSamples | examples/ex-timeout.c:36-43 | the state goes from 1 to 0 only after three consecutive 0 samples, and from 0 to 1 only after three consecutive 1 samples |
| Debounce.Ping | examples/ex-timeout.c:32-46 | on PING every button is sampled, and a press is sent for a button exactly when it falls and a client has registered |
| Debounce.Handle | examples/ex-timeout.c:31-54 | REGISTER makes the sender the client and changes nothing else, PING keeps the client, and exactly the other message types are refused |
| Prime.PrimeTest | ex-valentine.c:45-53 | prime returns 0 exactly when some k >= 2 with k * k <= n divides n, and for n >= 2 returns 1 exactly when n is prime. It reports the overflow of k * k, which the C code does not check, exactly when the loop would run past the int range |
| Prime.PrimeCharacterisation | ex-valentine.c:47-50 | for n >= 2, having no divisor k with k * k <= n is the same as being prime |
| Prime.SmallInputsAnswerOne | ex-valentine.c:47 | for n < 2 the loop never runs, so 0 and 1 (and negative numbers) are reported prime |

## Left out

- Diagnostic output is not modelled: `microbian_dump`, `kprintf`, `kputc`, `pad`, `delay_usec`, and the message `panic` prints. A panic is the fatal outcome, and the dump system call changes no kernel state.
- Trap and context-switch mechanics are not modelled: the fake exception frame of `start`, `set_stack`, the svc stubs, the saved stack pointer, and the `pause` of `idle_task`. System calls are transitions on the kernel record. The dispatcher receives the decoded call and the stack's base word as parameters.
- The idle process only ever yields, as `idle_task` does. The invariant lemmas for the other calls take this as a premise.
- TIMER0 run-time accounting (`age`, `delta`) is left out: it reads a hardware timer.
- The scheduling score is a parameter of the scored make_ready, because nothing initialises or increments `n_calls`.
- Device drivers are left out. This covers the radio and ADC drivers, the UART register accesses of the serial driver, and the setup part of `serial_task`.
- Register address tables, the `gpio_*` helpers and the assembly macros of the hardware headers are memory-mapped I/O, and are left out.
- `__reset`, the vector table, `spin`, `delay_loop` and `default_start` are boot code and busy-wait loops, and are left out.
- The demo programs are left out, apart from the button task and `prime`. This covers the echo, random-number and scheduling examples and the task bodies of the valentine example.
- Interrupt masking and preemption timing are left out. Each kernel entry is one atomic step, and `reschedule()` sets a flag.
- `sbrk`, `new_proc` and `create_proc` are defined both in microbian.c and in process.c. The two definitions are the same, and each routine is modelled once.
- Kernel integers are unbounded, except where the C code truncates. `ticks` grows only while a timer is pending and has not yet fallen due (microbian.c:294-300), and it is reset to 0 after every scan (microbian.c:323). The signed 32-bit overflow of `ticks + ms` is not modelled: it can happen for a timeout near INT_MAX, both in set_timeout's due time (microbian.c:267) and in the rescaling of a timer (microbian.c:311).
- The NO_TIME sentinel is None, so a due time equal to 0x80000000 is not confused with "no timer".
- Boot.CreateProc: the `n_ticks` and `n_calls` of a new descriptor are parameters, because create_proc never sets them.
- Syscalls.Connect: requires irq < N_INTERRUPTS, because the C code indexes `os_handler` unchecked. The handler table has 64 entries, as on the V2 board.
- Syscalls.Receive: which process runs next after a receive that takes a waiter or blocks is left to ChooseProc's contract. Receive's own contract states the descriptors only.
- Syscalls.SendStep: its own contract covers the faults and which processes may change. The delivery is stated by HandoffEffect and the waiting case by Enqueue.
- Syscalls.SystemCall: dispatches sendrec to the corrected SendRecStep, which cancels the receiver's timer, not to mini_sendrec as written (SendRecStep with cancel false); see Findings. Yield, exit and the context switch have no contract of their own, beyond YieldKeepsInv, ExitKeepsInv, CxtSwitchKeepsInv and DeadStaysDead.
- Syscalls.DefaultHandler: interrupts through the corrected Interrupt, which cancels the woken handler's timer, not through interrupt as written (InterruptWith with cancel false); see Findings.
- Invariant.SystemCallKeepsInv: holds for the dispatcher with the corrected sendrec only. As written, sendrec breaks the invariant (SendRecAsWrittenKeepsTimer).
- Invariant.DefaultHandlerKeepsInv: holds for the default handler with the corrected interrupt only. As written, interrupt breaks the invariant (InterruptAsWrittenKeepsTimer).
- Invariant.StepOnce: a call of any kind made while the idle process runs is taken to be its yield, because idle_task makes no other call.
- Invariant.StaleTimerQueuesTwice: the queues are sequences, so a second make_ready shows as a duplicate entry. The C code's linked queue instead loses the processes behind p, or points p at itself when p is the tail; that pointer damage is not modelled.
- Invariant.Inv: does not bound the running process below os_nprocs.
- Serial.QueueChar: when the output queue is full, queue_char waits for interrupts until it has room. The model reports the full queue instead, and QueueAll and PutBuf stop there.
- Serial.Getc: the C code panics when a second client waits for input. The model refuses the request and leaves the state unchanged.
- Serial.Interrupt: CTRL-B, which prints the process table, changes no state in the model.

## Findings

| source | as written | input that shows it | evidently intended | confidence | as-written member | corrected member |
|---|---|---|---|---|---|---|
| microbian.c:500-503, microbian.c:542-545 | mini_sendrec, delivering to a waiting receiver, and interrupt, waking a waiting handler, do not cancel the receiver's timer as mini_send does (microbian.c:419-422) | a process in receive with a timeout is sent a request by sendrec, or is interrupted: it becomes ACTIVE and ready, with its timeout still in the table. When the timer fires, mini_tick (microbian.c:316-319) calls make_ready on it while it is still queued. make_ready clears its next link (microbian.c:147) and appends it after the tail (microbian.c:182-184), which drops every process queued behind it, or links it to itself when it is the tail; the sequence model shows this as a second entry. A timed receive made before the stale timer fires fails the assertion of set_timeout (microbian.c:268) instead | cancel the receiver's timer before delivering, as mini_send does | not executed | Invariant.SendRecAsWrittenKeepsTimer, Invariant.InterruptAsWrittenKeepsTimer, Invariant.StaleTimerQueuesTwice | Invariant.SendRecKeepsInv, Invariant.InterruptKeepsInv |
| ubit-v1/startup.c:96-98 | `SET_BYTE(reg, irq & 0x3, prio)` expands to the masks `(0xff << 8*irq) & 0x3` and `((prio & 0xff) << 8*irq) & 0x3`, because the macro does not parenthesise its byte argument | irq_priority(1, 0xc0) on registers that are all 0 leaves the priority of interrupt 1 at 0; for any interrupt other than 0 no register changes | replace byte `irq & 3` of the register with prio | not executed | Nvic.AsWrittenNoop, Nvic.AsWrittenCounterexample | Nvic.IrqPrioritySets, Nvic.IrqPriorityFrame |
