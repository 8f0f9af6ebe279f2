/**
 * The system calls of the kernel: send, receive (with timeout), sendrec,
 * yield, exit, dump and tick, the interrupt path (interrupt and the
 * default handler), connect and priority, and the context switch that a
 * reschedule request leads to.
 *
 * Each call that ends in choose_proc is split into its step, which does
 * everything up to that point and carries the contract, and the call
 * itself, which chooses the next process.  Two calls come in two
 * versions: mini_sendrec and interrupt as written leave the receiver's
 * timer running, while the corrected versions cancel it as mini_send
 * does.  The dispatcher uses the corrected versions.
 */
module Syscalls {
  import opened Messages
  import opened Options
  import opened Proc
  import opened Kernel
  import opened Timers

  /** A system call as the dispatcher sees it, after decoding the svc operand and the saved arguments. */
  datatype Call =
    | SysYield
    | SysSend(dest: int, msg: Message)
    | SysReceive(mtype: int, buf: Option<Message>, timeout: int)
    | SysSendRec(dest: int, msg: Message)
    | SysExit
    | SysDump
    | SysTick(ms: int)
    | SysUnknown(op: int)

  /** dest names a process that find_dest accepts. */
  predicate Live(k: Kernel, dest: int)
    requires Wf(k)
  {
    0 <= dest < k.nprocs && k.procs[dest].state != Dead
  }

  /**
   * The timer cancellation of mini_send: a receiver with a timer has it
   * cancelled; one without keeps the state as it is.
   */
  function CancelIfSet(k: Kernel, p: Pid): (r: Outcome<Kernel>)
    requires Wf(k)
    ensures r.Ok? <==> k.procs[p].timeout.None? || p in k.timeouts
    ensures r.Fatal? ==> r.fault == UnsetTimeout
    ensures r.Ok? ==>
      && Wf(r.value) && r.value.procs[p].timeout.None? && Waiting(r.value) == Waiting(k)
      && r.value == k.(procs := k.procs[p := k.procs[p].(timeout := None)], timeouts := r.value.timeouts)
      && (k.procs[p].timeout.None? ==> r.value == k)
  {
    if k.procs[p].timeout.Some? then CancelTimeout(k, p) else Ok(k)
  }

  /**
   * The receiver dst, found waiting, gets src's message: its timer is
   * cancelled first when cancel is set (as mini_send does), and
   * deliver(dst, src) copies the message and makes dst ready.
   */
  function Handoff(k: Kernel, dst: Pid, src: Pid, cancel: bool): (r: Outcome<Kernel>)
    requires Wf(k) && k.procs[src].buf.Some?
    ensures r.Ok? <==> !cancel || k.procs[dst].timeout.None? || dst in k.timeouts
    ensures r.Fatal? ==> r.fault == UnsetTimeout
    ensures r.Ok? ==> Wf(r.value)
  {
    var c := if cancel then CancelIfSet(k, dst) else Ok(k);
    match c
    case Fatal(f) => Fatal(f)
    case Ok(k1) => Ok(Deliver(k1, dst, src))
  }

  /**
   * k' is k after dst received buf and was made ready: its timer is gone
   * if cancel was set and untouched otherwise, and no other descriptor
   * changed.
   */
  predicate HandedProcs(k: Kernel, k': Kernel, dst: Pid, buf: Option<Message>, cancel: bool)
    requires Wf(k) && Wf(k')
  {
    && k' == k.(procs := k'.procs, readyq := k'.readyq, timeouts := k'.timeouts)
    && k'.procs[dst] == k.procs[dst].(state := ReadiedState(k, dst), buf := buf,
         timeout := if cancel then None else k.procs[dst].timeout)
    && (forall x: Pid :: x != dst ==> k'.procs[x] == k.procs[x])
  }

  /** The timeout table lost dst if its timer was cancelled, and is as it was otherwise. */
  predicate HandedTimers(k: Kernel, k': Kernel, dst: Pid, cancel: bool)
    requires Wf(k)
  {
    && (cancel && k.procs[dst].timeout.Some? ==>
          && multiset(k'.timeouts) + multiset{dst} == multiset(k.timeouts)
          && (NoDup(k.timeouts) ==> NoDup(k'.timeouts) && dst !in k'.timeouts))
    && (!cancel || k.procs[dst].timeout.None? ==> k'.timeouts == k.timeouts)
  }

  /** The whole effect of a handoff on the kernel. */
  predicate Handed(k: Kernel, k': Kernel, dst: Pid, buf: Option<Message>, cancel: bool)
    requires Wf(k)
  {
    && Wf(k') && HandedProcs(k, k', dst, buf, cancel) && HandedTimers(k, k', dst, cancel)
    && Ready(k') == Ready(k) + Readied(k, dst) && Waiting(k') == Waiting(k)
  }

  /** What a handoff that does not panic does: dst has the stamped message and is ready, and only its timer entry changed besides. */
  lemma HandoffEffect(k: Kernel, dst: Pid, src: Pid, cancel: bool)
    requires Wf(k) && k.procs[src].buf.Some? && Handoff(k, dst, src, cancel).Ok?
    ensures Handed(k, Handoff(k, dst, src, cancel).value, dst, Copied(k, dst, src), cancel)
  {
    var k1 := if cancel then CancelIfSet(k, dst).value else k;
    assert Handoff(k, dst, src, cancel).value == Deliver(k1, dst, src);
    HandoffProcs(k, k1, dst, src, cancel);
    assert Readied(k1, dst) == Readied(k, dst);
  }

  /** The descriptor half of HandoffEffect, from the state k1 after the optional cancellation. */
  lemma HandoffProcs(k: Kernel, k1: Kernel, dst: Pid, src: Pid, cancel: bool)
    requires Wf(k) && k.procs[src].buf.Some?
    requires cancel ==> CancelIfSet(k, dst).Ok?
    requires k1 == if cancel then CancelIfSet(k, dst).value else k
    ensures Wf(k1) && k1.procs[src].buf.Some?
    ensures HandedProcs(k, Deliver(k1, dst, src), dst, Copied(k, dst, src), cancel)
    ensures HandedTimers(k, Deliver(k1, dst, src), dst, cancel)
  {
    assert Copied(k1, dst, src) == Copied(k, dst, src);
    assert ReadiedState(k1, dst) == ReadiedState(k, dst);
  }

  // ---------------------------------------------------------------------
  // send

  /** The caller's buffer pointer is set to its message, as every send and receive does first. */
  function SetBuf(k: Kernel, buf: Option<Message>): (r: Kernel)
    requires Wf(k) && k.current.Some?
    ensures Wf(r) && r == k.(procs := r.procs) && Waiting(r) == Waiting(k)
    ensures r.procs[k.current.value] == k.procs[k.current.value].(buf := buf)
    ensures forall x: Pid :: x != k.current.value ==> r.procs[x] == k.procs[x]
  {
    SetProc(k, k.current.value, k.procs[k.current.value].(buf := buf))
  }

  /**
   * mini_send(dest, msg) up to choose_proc.  A receiver that accepts the
   * type gets the message stamped with the caller's pid, loses its
   * timer, and is made ready, and so is the caller; otherwise the caller
   * becomes SENDING at the tail of the receiver's waiting list.
   */
  function SendStep(k: Kernel, dest: int, msg: Message): (r: Outcome<Kernel>)
    requires Wf(k) && k.current.Some?
    ensures !Live(k, dest) ==> r == Fatal(FindDest(k, dest).fault)
    ensures r.Fatal? && Live(k, dest) ==> r.fault == UnsetTimeout
    ensures r.Ok? ==> Wf(r.value) && forall x: Pid :: x != k.current.value && x != dest ==> r.value.procs[x] == k.procs[x]
  {
    var cur := k.current.value;
    match FindDest(k, dest)
    case Fatal(f) => Fatal(f)
    case Ok(pd) =>
      var k1 := SetBuf(k, Some(msg));
      if Accept(k1.procs[pd], msg.mtype) then
        match Handoff(k1, pd, cur, true)
        case Fatal(f) => Fatal(f)
        case Ok(k2) =>
          HandoffEffect(k1, pd, cur, true);
          Ok(MakeReady(k2, cur))
      else
        Ok(Enqueue(k1, pd, Sending))
  }

  /** The caller, in state st, joins the tail of dst's waiting list. */
  function Enqueue(k: Kernel, dst: Pid, st: State): (r: Kernel)
    requires Wf(k) && k.current.Some?
    ensures Wf(r) && r == k.(procs := r.procs)
    ensures Waits(k, r, dst, k.current.value, st)
  {
    var cur := k.current.value;
    var k1 := SetProc(k, cur, k.procs[cur].(state := st));
    QueueSender(k1, dst)
  }

  /**
   * The outcome of a send that must wait: the sender src is in state st
   * at the tail of dst's waiting list; nothing else changes.
   */
  predicate Waits(k: Kernel, k': Kernel, dst: Pid, src: Pid, st: State)
    requires Wf(k) && Wf(k')
  {
    && k' == k.(procs := k'.procs)
    && k'.procs[src].state == st
    && k'.procs[dst].waiting == k.procs[dst].waiting + [src]
    && (dst != src ==>
          && k'.procs[src] == k.procs[src].(state := st)
          && k'.procs[dst] == k.procs[dst].(waiting := k.procs[dst].waiting + [src]))
    && (dst == src ==> k'.procs[src] == k.procs[src].(state := st, waiting := k.procs[src].waiting + [src]))
    && (forall x: Pid :: x != dst && x != src ==> k'.procs[x] == k.procs[x])
    && Waiting(k') == Waiting(k) + multiset{src}
  }

  // ---------------------------------------------------------------------
  // receive

  /**
   * What the C code takes for granted when it runs a call for the current
   * process: every waiter has a message buffer (find_sender reads it),
   * and the caller itself waits on no list.
   */
  predicate Callable(k: Kernel)
    requires Wf(k)
  {
    && k.current.Some? && Waiting(k)[k.current.value] == 0
    && forall p: Pid :: WaitersHaveBuf(k, p)
  }

  /** A pending interrupt is consumed: the flag is cleared and INTERRUPT from HARDWARE lands in the caller's buffer. */
  function TakeInterrupt(k: Kernel): (r: Kernel)
    requires Wf(k) && k.current.Some?
    ensures Wf(r) && r == k.(procs := r.procs) && Waiting(r) == Waiting(k)
    ensures r.procs[k.current.value] == k.procs[k.current.value].(
      pending := false, buf := Stamped(k.procs[k.current.value].buf, HARDWARE, INTERRUPT))
    ensures forall x: Pid :: x != k.current.value ==> r.procs[x] == k.procs[x]
  {
    var cur := k.current.value;
    DeliverSpecial(SetProc(k, cur, k.procs[cur].(pending := false)), cur, HARDWARE, INTERRUPT)
  }

  /**
   * The receiver dst takes the message of the waiter src that find_sender
   * unlinked: deliver(dst, src), then src is released if it only sent, or
   * waits for its reply if it used sendrec.  A waiter in any other state
   * is fatal.
   */
  function Collect(k: Kernel, dst: Pid, src: Pid): (r: Outcome<Kernel>)
    requires Wf(k) && k.procs[src].buf.Some? && src != dst
    requires dst !in k.procs[src].waiting && WaitersHaveBuf(k, src)
    ensures r.Ok? <==> k.procs[src].state == Sending || k.procs[src].state == SendRec
    ensures r.Fatal? ==> r.fault == BadStateInReceive
    ensures r.Ok? ==> Wf(r.value) && r.value.current == k.current && Collected(k, r.value, dst, src)
  {
    var k3 := Deliver(k, dst, src);
    assert k3.procs[src] == k.procs[src];
    assert forall x :: x in k3.procs[src].waiting ==> k3.procs[x] == k.procs[x];
    match k3.procs[src].state
    case Sending => CollectSent(k, dst, src); Ok(MakeReady(k3, src))
    case SendRec => CollectSendRec(k, dst, src); Ok(AwaitReply(k3, src))
    case _ => Fatal(BadStateInReceive)
  }

  /** Taking a plain send: both sides are made ready. */
  lemma CollectSent(k: Kernel, dst: Pid, src: Pid)
    requires Wf(k) && k.procs[src].buf.Some? && src != dst && k.procs[src].state == Sending
    ensures Collected(k, MakeReady(Deliver(k, dst, src), src), dst, src)
  {
    var k3 := Deliver(k, dst, src);
    assert k3.procs[src] == k.procs[src];
    assert ReadiedState(k3, src) == ReadiedState(k, src);
  }

  /** Taking a sendrec request: the receiver is made ready and the sender awaits its reply. */
  lemma CollectSendRec(k: Kernel, dst: Pid, src: Pid)
    requires Wf(k) && k.procs[src].buf.Some? && src != dst && k.procs[src].state == SendRec
    requires dst !in k.procs[src].waiting && WaitersHaveBuf(k, src)
    ensures var k3 := Deliver(k, dst, src);
      WaitersHaveBuf(k3, src) && Collected(k, AwaitReply(k3, src), dst, src)
  {
    var k3 := Deliver(k, dst, src);
    assert k3.procs[src] == k.procs[src];
    assert forall x :: x in k3.procs[src].waiting ==> k3.procs[x] == k.procs[x];
    var r := AwaitReply(k3, src);
    assert r.procs[dst] == k3.procs[dst];
    assert forall x: Pid :: x != dst && x != src ==> k3.procs[x] == k.procs[x];
  }

  /**
   * What the receiver dst taking src's message leaves behind: dst holds
   * the message stamped with src's pid and is made ready; a plain sender
   * is made ready too, while a sendrec caller waits for its reply or
   * already has it; and no process changed but these two and the waiters
   * on src (one of which may be a REPLY released to src).
   */
  predicate Collected(k: Kernel, k': Kernel, dst: Pid, src: Pid)
    requires Wf(k) && Wf(k') && k.procs[src].buf.Some?
  {
    && k'.procs[dst].buf == Copied(k, dst, src)
    && k'.procs[dst].state == ReadiedState(k, dst)
    && (k.procs[src].state == Sending ==> k'.procs[src].state == ReadiedState(k, src))
    && (k.procs[src].state == SendRec ==> AwaitingReply(k', src))
    && forall x: Pid :: x != dst && x != src && x !in k.procs[src].waiting ==> k'.procs[x] == k.procs[x]
  }

  /**
   * The caller blocks: RECEIVING with the requested type as its filter,
   * and a timer when the timeout is positive.
   */
  function Block(k: Kernel, mtype: int, timeout: int): (r: Outcome<Kernel>)
    requires Wf(k) && k.current.Some?
    ensures r.Ok? <==> timeout <= 0 || (|k.timeouts| < NPROCS && k.procs[k.current.value].timeout.None?)
    ensures r.Fatal? ==> r.fault == AssertFailed
    ensures r.Ok? ==> Wf(r.value) && Waiting(r.value) == Waiting(k)
    ensures r.Ok? ==> var cur, d := k.current.value, r.value.procs[k.current.value];
      && r.value.current == k.current && r.value.readyq == k.readyq
      && d == k.procs[cur].(state := Receiving, filter := mtype, timeout := d.timeout)
      && (k.procs[cur].timeout.None? ==> (d.timeout.Some? <==> timeout > 0))
      && (timeout > 0 ==> d.timeout == Some(k.ticks + timeout))
      && (timeout <= 0 ==> d.timeout == k.procs[cur].timeout)
      && forall x: Pid :: x != cur ==> r.value.procs[x] == k.procs[x]
  {
    var cur := k.current.value;
    var k1 := SetProc(k, cur, k.procs[cur].(state := Receiving, filter := mtype));
    if timeout > 0 then SetTimeout(k1, timeout) else Ok(k1)
  }

  /** Whether the pending interrupt satisfies a receive of this type. */
  predicate TakesPending(k: Kernel, mtype: int)
    requires Wf(k) && k.current.Some?
  {
    k.procs[k.current.value].pending && (mtype == ANY || mtype == INTERRUPT)
  }

  /**
   * The sender a receive of this type is satisfied by, if any, and the
   * state after it leaves the caller's waiting list.  INTERRUPT is only
   * ever satisfied by the pending flag.
   */
  function Sender(k: Kernel, mtype: int): (r: (Kernel, Option<Pid>))
    requires Wf(k) && k.current.Some? && WaitersHaveBuf(k, k.current.value)
    ensures Wf(r.0)
    ensures mtype == INTERRUPT ==> r == (k, None)
  {
    if mtype != INTERRUPT then FindSender(k, k.current.value, mtype) else (k, None)
  }

  /**
   * mini_receive(type, msg, timeout): a pending interrupt first (for ANY
   * and INTERRUPT), then the earliest matching waiter, then an immediate
   * TIMEOUT when timeout is 0, and otherwise the caller blocks.  Only
   * the waiter and blocking cases choose the next process.
   */
  function Receive(k: Kernel, mtype: int, buf: Option<Message>, timeout: int): (r: Outcome<Kernel>)
    requires Wf(k) && Callable(k)
    ensures r.Fatal? ==> r.fault == BadStateInReceive || r.fault == AssertFailed
    ensures r.Ok? ==> Wf(r.value)
    ensures WaitersHaveBuf(SetBuf(k, buf), k.current.value)
    ensures var k1 := SetBuf(k, buf);
      TakesPending(k1, mtype) ==> r == Ok(TakeInterrupt(k1))
    ensures var k1 := SetBuf(k, buf); var (k2, s) := Sender(k1, mtype);
      !TakesPending(k1, mtype) && s.Some? ==>
        && k2.procs[s.value] == k.procs[s.value] && k.procs[s.value].buf.Some?
        && (r.Ok? <==> k.procs[s.value].state == Sending || k.procs[s.value].state == SendRec)
        && (r.Ok? ==> Collected(k2, r.value, k.current.value, s.value))
    ensures var k1, cur := SetBuf(k, buf), k.current.value;
      !TakesPending(k1, mtype) && Sender(k1, mtype).1.None? ==>
        && (timeout == 0 ==> r == Ok(DeliverSpecial(k1, cur, HARDWARE, TIMEOUT)))
        && (timeout != 0 ==>
              && (r.Ok? <==> timeout < 0 || (|k.timeouts| < NPROCS && k.procs[cur].timeout.None?))
              && (r.Ok? ==> var d := r.value.procs[cur];
                    && d.state == Receiving && d.filter == mtype && d.buf == buf
                    && (k.procs[cur].timeout.None? ==> (d.timeout.Some? <==> timeout > 0))))
    ensures r.Ok? ==> forall x: Pid :: x != k.current.value && Waiting(k)[x] == 0 ==> r.value.procs[x] == k.procs[x]
  {
    var cur := k.current.value;
    var k1 := SetBuf(k, buf);
    ReceiveReady(k, buf, mtype);
    if TakesPending(k1, mtype) then Ok(TakeInterrupt(k1))
    else
      var (k2, s) := Sender(k1, mtype);
      if s.Some? then
        match Collect(k2, cur, s.value)
        case Fatal(f) => Fatal(f)
        case Ok(k3) =>
          CollectFrame(k, k2, k3, s.value);
          Ok(ChooseProc(k3))
      else if timeout == 0 then Ok(DeliverSpecial(k1, cur, HARDWARE, TIMEOUT))
      else
        match Block(k1, mtype, timeout)
        case Fatal(f) => Fatal(f)
        case Ok(k3) =>
          BlockFrame(k, k1, k3);
          Ok(ChooseProc(k3))
  }

  /** Blocking changes no process but the caller. */
  lemma BlockFrame(k: Kernel, k1: Kernel, k3: Kernel)
    requires Wf(k) && Wf(k1) && Wf(k3) && k.current.Some?
    requires forall x: Pid :: x != k.current.value ==> k1.procs[x] == k.procs[x]
    requires forall x: Pid :: x != k.current.value ==> k3.procs[x] == k1.procs[x]
    ensures Wf(ChooseProc(k3))
    ensures forall x: Pid :: x != k.current.value && Waiting(k)[x] == 0 ==> ChooseProc(k3).procs[x] == k.procs[x]
  {
  }

  /** A receive that takes a waiting message changes no process off every waiting list, bar the caller. */
  lemma CollectFrame(k: Kernel, k2: Kernel, k3: Kernel, src: Pid)
    requires Wf(k) && Callable(k) && Wf(k2) && Wf(k3) && k2.procs[src].buf.Some?
    requires src in k.procs[k.current.value].waiting && k2.procs[src] == k.procs[src]
    requires forall x: Pid :: x != k.current.value ==> k2.procs[x] == k.procs[x]
    requires Collected(k2, k3, k.current.value, src)
    ensures Wf(ChooseProc(k3)) && Collected(k2, ChooseProc(k3), k.current.value, src)
    ensures forall x: Pid :: x != k.current.value && Waiting(k)[x] == 0 ==> ChooseProc(k3).procs[x] == k.procs[x]
  {
    forall x: Pid | x != k.current.value && Waiting(k)[x] == 0
      ensures k3.procs[x] == k.procs[x]
    {
      NotWaiting(k, x);
      assert x !in k.procs[k.current.value].waiting && x !in k.procs[src].waiting;
    }
  }

  /** The preconditions of Collect hold for the sender a receive finds. */
  lemma ReceiveReady(k: Kernel, buf: Option<Message>, mtype: int)
    requires Wf(k) && Callable(k)
    ensures var k1 := SetBuf(k, buf);
      WaitersHaveBuf(k1, k.current.value) &&
      var (k2, s) := Sender(k1, mtype);
      && (forall x: Pid :: x != k.current.value ==> k2.procs[x] == k.procs[x])
      && (s.Some? ==>
        && k2.procs[s.value].buf.Some? && s.value != k.current.value && s.value in k.procs[k.current.value].waiting
        && k.current.value !in k2.procs[s.value].waiting && WaitersHaveBuf(k2, s.value))
  {
    var cur := k.current.value;
    var k1 := SetBuf(k, buf);
    assert WaitersHaveBuf(k, cur);
    NotWaiting(k, cur);
    if Sender(k1, mtype).1.Some? {
      SenderFacts(k, k1, mtype);
    }
  }

  /** The sender taken off the caller's list has a message, is not the caller, and its own waiters have messages. */
  lemma SenderFacts(k: Kernel, k1: Kernel, mtype: int)
    requires Wf(k) && Callable(k) && Wf(k1) && k1.current == k.current
    requires forall i :: 0 <= i < NPROCS ==> k.current.value !in k.procs[i].waiting
    requires forall x: Pid :: x != k.current.value ==> k1.procs[x] == k.procs[x]
    requires k1.procs[k.current.value].waiting == k.procs[k.current.value].waiting
    requires WaitersHaveBuf(k1, k.current.value) && Sender(k1, mtype).1.Some?
    ensures var (k2, s) := Sender(k1, mtype);
      && k2.procs[s.value].buf.Some? && s.value != k.current.value && s.value in k.procs[k.current.value].waiting
      && k.current.value !in k2.procs[s.value].waiting && WaitersHaveBuf(k2, s.value)
  {
    var cur := k.current.value;
    var (k2, s) := Sender(k1, mtype);
    var src := s.value;
    assert src in k.procs[cur].waiting;
    assert src != cur;
    assert k2.procs[src] == k.procs[src];
    assert WaitersHaveBuf(k, src);
  }

  // ---------------------------------------------------------------------
  // sendrec

  /**
   * mini_sendrec(dest, msg) up to choose_proc.  A REPLY may not be sent
   * this way.  A receiver that accepts gets the message and is made
   * ready (its timer cancelled only when cancel is set), and the caller
   * then waits for its reply; otherwise the caller becomes SENDREC at the
   * tail of the receiver's waiting list.  As written the C code does not
   * cancel the timer: that is this function with cancel false.
   */
  function SendRecStep(k: Kernel, dest: int, msg: Message, cancel: bool): (r: Outcome<Kernel>)
    requires Wf(k) && Callable(k)
    ensures !Live(k, dest) ==> r == Fatal(FindDest(k, dest).fault)
    ensures Live(k, dest) && msg.mtype == REPLY ==> r == Fatal(SendrecReply)
    ensures r.Fatal? && Live(k, dest) && msg.mtype != REPLY ==> cancel && r.fault == UnsetTimeout
    ensures r.Ok? ==> Wf(r.value)
    ensures r.Ok? && Accept(k.procs[dest], msg.mtype) ==>
      SendRecDelivered(k, r.value, dest, msg, cancel)
    ensures Live(k, dest) && msg.mtype != REPLY && !Accept(k.procs[dest], msg.mtype) ==>
      r.Ok? && Waits(SetBuf(k, Some(msg)), r.value, dest, k.current.value, SendRec)
    ensures r.Ok? ==> forall x: Pid :: x != k.current.value && x != dest && Waiting(k)[x] == 0 ==>
      r.value.procs[x] == k.procs[x]
  {
    var cur := k.current.value;
    match FindDest(k, dest)
    case Fatal(f) => Fatal(f)
    case Ok(pd) =>
      if msg.mtype == REPLY then Fatal(SendrecReply)
      else
        var k1 := SetBuf(k, Some(msg));
        if Accept(k1.procs[pd], msg.mtype) then
          match Handoff(k1, pd, cur, cancel)
          case Fatal(f) => Fatal(f)
          case Ok(k2) =>
            SendRecReady(k, pd, msg, cancel);
            SendRecHanded(k, pd, msg, cancel);
            Ok(AwaitReply(k2, cur))
        else
          Ok(Enqueue(k1, pd, SendRec))
  }

  /**
   * A sendrec whose request was taken at once: the caller awaits its
   * reply (or already has it), and a receiver other than the caller, not
   * itself waiting on the caller, holds the request stamped with the
   * caller's pid, is made ready, and lost its timer when cancel is set.
   */
  predicate SendRecDelivered(k: Kernel, k': Kernel, dest: Pid, msg: Message, cancel: bool)
    requires Wf(k) && Wf(k') && k.current.Some?
  {
    var cur := k.current.value;
    && k'.current == k.current && AwaitingReply(k', cur)
    && (dest != cur && dest !in k.procs[cur].waiting ==>
          && k'.procs[dest].buf == (if k.procs[dest].buf.None? then None else Some(msg.(sender := ToU16(cur))))
          && k'.procs[dest].state == ReadiedState(k, dest)
          && k'.procs[dest].timeout == (if cancel then None else k.procs[dest].timeout))
  }

  /** The effect of a sendrec whose request a receiver took, from the handoff and await_reply. */
  lemma SendRecHanded(k: Kernel, pd: Pid, msg: Message, cancel: bool)
    requires Wf(k) && Callable(k)
    requires Handoff(SetBuf(k, Some(msg)), pd, k.current.value, cancel).Ok?
    requires WaitersHaveBuf(Handoff(SetBuf(k, Some(msg)), pd, k.current.value, cancel).value, k.current.value)
    ensures var k2 := Handoff(SetBuf(k, Some(msg)), pd, k.current.value, cancel).value;
      var r := AwaitReply(k2, k.current.value);
      && SendRecDelivered(k, r, pd, msg, cancel)
      && forall x: Pid :: x != k.current.value && x != pd && Waiting(k)[x] == 0 ==> r.procs[x] == k.procs[x]
  {
    var cur := k.current.value;
    var k1 := SetBuf(k, Some(msg));
    HandoffEffect(k1, pd, cur, cancel);
    var k2 := Handoff(k1, pd, cur, cancel).value;
    assert k2.procs[cur].buf.Some?;
    assert k2.procs[cur].waiting == k.procs[cur].waiting;
    var r := AwaitReply(k2, cur);
    forall x: Pid | x != cur && x != pd && Waiting(k)[x] == 0
      ensures r.procs[x] == k.procs[x]
    {
      NotWaiting(k, x);
    }
  }

  /** After the handoff of a sendrec, the caller's waiters still have buffers, as await_reply needs. */
  lemma SendRecReady(k: Kernel, pd: Pid, msg: Message, cancel: bool)
    requires Wf(k) && Callable(k)
    requires Handoff(SetBuf(k, Some(msg)), pd, k.current.value, cancel).Ok?
    ensures WaitersHaveBuf(Handoff(SetBuf(k, Some(msg)), pd, k.current.value, cancel).value, k.current.value)
  {
    var cur := k.current.value;
    var k1 := SetBuf(k, Some(msg));
    HandoffEffect(k1, pd, cur, cancel);
    var k2 := Handoff(k1, pd, cur, cancel).value;
    assert WaitersHaveBuf(k, cur) && WaitersHaveBuf(k, pd);
    NotWaiting(k, cur);
    assert k2.procs[cur].waiting == k.procs[cur].waiting;
    forall x | x in k2.procs[cur].waiting
      ensures k2.procs[x].buf.Some?
    {
      assert x != cur;
    }
  }

  // ---------------------------------------------------------------------
  // Interrupts

  /**
   * interrupt(dest): a handler that accepts INTERRUPT gets it from
   * HARDWARE and is made ready (its timer cancelled only when cancel is
   * set), and a reschedule is requested unless the current process is
   * itself a handler; otherwise the handler's pending flag is set.  As
   * written the C code does not cancel the timer: that is this function
   * with cancel false.
   */
  function InterruptWith(k: Kernel, dest: int, cancel: bool): (r: Outcome<Kernel>)
    requires Wf(k) && k.current.Some?
    ensures !Live(k, dest) ==> r == Fatal(FindDest(k, dest).fault)
    ensures r.Fatal? && Live(k, dest) ==> cancel && r.fault == UnsetTimeout
    ensures r.Ok? ==> Wf(r.value) && r.value.current == k.current
    ensures r.Ok? && Accept(k.procs[dest], INTERRUPT) ==>
      && r.value.procs[dest].buf == Stamped(k.procs[dest].buf, HARDWARE, INTERRUPT)
      && r.value.procs[dest].state == ReadiedState(k, dest)
      && r.value.procs[dest].timeout == (if cancel then None else k.procs[dest].timeout)
      && Ready(r.value) == Ready(k) + Readied(k, dest)
      && r.value.resched == (k.resched || k.procs[k.current.value].priority > P_HANDLER)
    ensures Live(k, dest) && !Accept(k.procs[dest], INTERRUPT) ==>
      r == Ok(k.(procs := k.procs[dest := k.procs[dest].(pending := true)]))
    ensures r.Ok? ==> forall x: Pid :: x != dest ==> r.value.procs[x] == k.procs[x]
  {
    match FindDest(k, dest)
    case Fatal(f) => Fatal(f)
    case Ok(pd) =>
      if Accept(k.procs[pd], INTERRUPT) then
        match (if cancel then CancelIfSet(k, pd) else Ok(k))
        case Fatal(f) => Fatal(f)
        case Ok(k1) =>
          Wake(k, k1, pd, cancel);
          var k2 := MakeReady(DeliverSpecial(k1, pd, HARDWARE, INTERRUPT), pd);
          Ok(k2.(resched := k2.resched || k.procs[k.current.value].priority > P_HANDLER))
      else
        var r := SetProc(k, pd, k.procs[pd].(pending := true));
        assert r.current == k.current && r.procs == k.procs[pd := k.procs[pd].(pending := true)];
        Ok(r)
  }

  /** The handler pd woken by an interrupt holds INTERRUPT from HARDWARE and is made ready; no other process changes. */
  lemma Wake(k: Kernel, k1: Kernel, pd: Pid, cancel: bool)
    requires Wf(k) && (if cancel then CancelIfSet(k, pd) == Ok(k1) else k1 == k)
    ensures Wf(k1)
    ensures var r := MakeReady(DeliverSpecial(k1, pd, HARDWARE, INTERRUPT), pd);
      && r.current == k.current && r.resched == k.resched
      && r.procs[pd] == k.procs[pd].(buf := Stamped(k.procs[pd].buf, HARDWARE, INTERRUPT),
           state := ReadiedState(k, pd), timeout := if cancel then None else k.procs[pd].timeout)
      && Ready(r) == Ready(k) + Readied(k, pd)
      && forall x: Pid :: x != pd ==> r.procs[x] == k.procs[x]
  {
    var k2 := DeliverSpecial(k1, pd, HARDWARE, INTERRUPT);
    assert k2.readyq == k.readyq;
    assert Readied(k2, pd) == Readied(k, pd) && ReadiedState(k2, pd) == ReadiedState(k, pd);
  }

  /** The corrected interrupt, used by the handler: it cancels the timer of the handler it wakes. */
  function Interrupt(k: Kernel, dest: int): (r: Outcome<Kernel>)
    requires Wf(k) && k.current.Some?
    ensures !Live(k, dest) ==> r == Fatal(FindDest(k, dest).fault)
    ensures r.Ok? ==> Wf(r.value)
  {
    InterruptWith(k, dest, true)
  }

  /**
   * A handler that does not accept INTERRUPT only has its pending flag
   * set, so that further interrupts before it receives change nothing:
   * they coalesce into one.
   */
  lemma InterruptsCoalesce(k: Kernel, dest: int, cancel: bool)
    requires Wf(k) && k.current.Some? && Live(k, dest) && !Accept(k.procs[dest], INTERRUPT)
    ensures var r := InterruptWith(k, dest, cancel);
      && r == Ok(k.(procs := k.procs[dest := k.procs[dest].(pending := true)]))
      && Live(r.value, dest) && !Accept(r.value.procs[dest], INTERRUPT)
      && InterruptWith(r.value, dest, cancel) == r
  {
    var k1 := InterruptWith(k, dest, cancel).value;
    assert k1.procs[dest].(pending := true) == k1.procs[dest];
    assert k1.procs[dest := k1.procs[dest]] == k1.procs;
  }

  /**
   * default_handler for interrupt irq: one with no registered handler
   * (entry 0, the idle process, which never handles one) is fatal, and
   * otherwise the handler is interrupted.
   */
  function DefaultHandler(k: Kernel, irq: int): (r: Outcome<Kernel>)
    requires Wf(k) && k.current.Some? && irq < N_INTERRUPTS
    ensures irq < 0 || k.handler[irq] == 0 ==> r == Fatal(UnexpectedInterrupt(irq))
    ensures irq >= 0 && k.handler[irq] != 0 ==> r == Interrupt(k, k.handler[irq])
    ensures r.Ok? ==> Wf(r.value)
  {
    if irq < 0 || k.handler[irq] == 0 then Fatal(UnexpectedInterrupt(irq))
    else Interrupt(k, k.handler[irq])
  }

  /**
   * connect(irq): the caller becomes the handler of irq and runs at
   * handler priority.  A negative irq (a CPU exception) is fatal.
   */
  function Connect(k: Kernel, irq: int): (r: Outcome<Kernel>)
    requires Wf(k) && k.current.Some? && irq < N_INTERRUPTS
    ensures r.Ok? <==> irq >= 0
    ensures r.Fatal? ==> r.fault == ConnectException
    ensures r.Ok? ==> Wf(r.value) && r.value.handler[irq] == k.current.value
    ensures r.Ok? ==> r.value.procs[k.current.value].priority == P_HANDLER
    ensures r.Ok? ==> forall j :: 0 <= j < N_INTERRUPTS && j != irq ==> r.value.handler[j] == k.handler[j]
    ensures r.Ok? ==> forall x: Pid :: x != k.current.value ==> r.value.procs[x] == k.procs[x]
  {
    var cur := k.current.value;
    if irq < 0 then Fatal(ConnectException)
    else
      var k1 := SetProc(k, cur, k.procs[cur].(priority := P_HANDLER));
      Ok(k1.(handler := k.handler[irq := cur]))
  }

  /**
   * After connect(irq), interrupt irq is routed to the caller: the
   * default handler interrupts it, and the caller has handler priority.
   */
  lemma ConnectRoutes(k: Kernel, irq: int)
    requires Wf(k) && k.current.Some? && 0 <= irq < N_INTERRUPTS && k.current.value != 0
    ensures Connect(k, irq).Ok?
    ensures var k1 := Connect(k, irq).value;
      && k1.procs[k.current.value].priority == P_HANDLER
      && DefaultHandler(k1, irq) == Interrupt(k1, k.current.value)
  {
  }

  /** priority(p): the caller's priority becomes p; one outside [P_HANDLER, P_LOW] is fatal. */
  function SetPriority(k: Kernel, p: int): (r: Outcome<Kernel>)
    requires Wf(k) && k.current.Some?
    ensures r.Ok? <==> P_HANDLER <= p <= P_LOW
    ensures r.Fatal? ==> r.fault == BadPriority(p)
    ensures r.Ok? ==> Wf(r.value) && r.value.procs[k.current.value].priority == p
    ensures r.Ok? ==> forall x: Pid :: x != k.current.value ==> r.value.procs[x] == k.procs[x]
  {
    var cur := k.current.value;
    if p < P_HANDLER || p > P_LOW then Fatal(BadPriority(p))
    else Ok(SetProc(k, cur, k.procs[cur].(priority := p)))
  }

  // ---------------------------------------------------------------------
  // The dispatcher

  /** yield(): the caller goes to the back of its ready queue and the next process is chosen. */
  function Yield(k: Kernel): (r: Kernel)
    requires Wf(k) && k.current.Some?
  {
    ChooseProc(MakeReady(k, k.current.value))
  }

  /** exit(): the caller is DEAD for good and the next process is chosen. */
  function Exit(k: Kernel): (r: Kernel)
    requires Wf(k) && k.current.Some?
  {
    ChooseProc(SetProc(k, k.current.value, k.procs[k.current.value].(state := Dead)))
  }

  /** tick(ms) from the timer driver: the caller's 64-bit tick count grows by one and the timers advance. */
  function Tick(k: Kernel, ms: int): (r: Outcome<Kernel>)
    requires Wf(k) && k.current.Some?
    ensures r.Fatal? ==> r.fault == AssertFailed
  {
    MiniTick(CountTick(k), ms)
  }

  /** The caller's n_ticks, an unsigned 64-bit counter, grows by one and wraps to 0 after its largest value. */
  function CountTick(k: Kernel): (r: Kernel)
    requires Wf(k) && k.current.Some?
    ensures Wf(r) && r == k.(procs := r.procs)
    ensures var cur := k.current.value;
      && r.procs[cur] == k.procs[cur].(nTicks := r.procs[cur].nTicks)
      && r.procs[cur].nTicks < Pow64
      && (k.procs[cur].nTicks + 1 < Pow64 ==> r.procs[cur].nTicks == k.procs[cur].nTicks + 1)
      && (k.procs[cur].nTicks + 1 == Pow64 ==> r.procs[cur].nTicks == 0)
    ensures forall x: Pid :: x != k.current.value ==> r.procs[x] == k.procs[x]
  {
    var cur := k.current.value;
    SetProc(k, cur, k.procs[cur].(nTicks := (k.procs[cur].nTicks + 1) % Pow64))
  }

  /**
   * system_call: a stack whose lowest word is no longer BLANK has
   * overflowed, which is fatal; otherwise the call is carried out, and an
   * unknown operation is fatal.  base is the word at the bottom of the
   * caller's stack.
   */
  function SystemCall(k: Kernel, call: Call, base: int): (r: Outcome<Kernel>)
    requires Wf(k) && Callable(k)
    ensures base != BLANK ==> r == Fatal(StackOverflow)
    ensures base == BLANK && call.SysUnknown? ==> r == Fatal(UnknownSyscall(call.op))
    ensures base == BLANK && call.SysDump? ==> r == Ok(k)
  {
    if base != BLANK then Fatal(StackOverflow)
    else
      match call
      case SysYield => Ok(Yield(k))
      case SysSend(dest, msg) =>
        (match SendStep(k, dest, msg)
         case Fatal(f) => Fatal(f)
         case Ok(k1) => Ok(ChooseProc(k1)))
      case SysReceive(mtype, buf, timeout) => Receive(k, mtype, buf, timeout)
      case SysSendRec(dest, msg) =>
        (match SendRecStep(k, dest, msg, true)
         case Fatal(f) => Fatal(f)
         case Ok(k1) => Ok(ChooseProc(k1)))
      case SysExit => Ok(Exit(k))
      case SysDump => Ok(k)
      case SysTick(ms) => Tick(k, ms)
      case SysUnknown(op) => Fatal(UnknownSyscall(op))
  }

  /**
   * cxt_switch, the handler of a requested reschedule: the interrupted
   * process goes back on its ready queue and the next one is chosen.
   * The request is consumed.
   */
  function CxtSwitch(k: Kernel): (r: Kernel)
    requires Wf(k) && k.current.Some?
  {
    ChooseProc(MakeReady(k.(resched := false), k.current.value))
  }
}
