/**
 * The kernel invariant and its preservation.  Between system calls every
 * process is on at most one queue, and which one follows from its state:
 * an ACTIVE process that is not running is on exactly one ready queue, a
 * SENDING or SENDREC process on exactly one waiting list, and any other
 * process on none.  Only a RECEIVING process has a timer, a blocked sender
 * has its message buffer, the idle process alone has the idle priority,
 * every process on a ready queue has that queue's priority (Placed), and
 * the timeout table is consistent (TimersOk).
 *
 * Each system call is shown to take a state satisfying Inv to one where
 * the same holds with no process running (PreChoose), and choose_proc
 * takes that back to Inv.  The idle process only ever yields, so the
 * lemmas for the other calls assume the caller is not the idle process.
 */
module Invariant {
  import opened Messages
  import opened Options
  import opened Proc
  import opened Kernel
  import opened Timers
  import opened Syscalls

  /** A blocked sender: on a waiting list until its message is taken. */
  predicate Blocked(s: State)
  {
    s == Sending || s == SendRec
  }

  /**
   * What the queues and timers hold for p, given the processes that are
   * momentarily off every queue (the running process, and a process a
   * system call is moving between queues): an ACTIVE process is on one
   * ready queue and a blocked sender on one waiting list, unless it is
   * off, and nothing else is queued.
   */
  predicate PidOk(k: Kernel, p: Pid, off: set<Pid>)
    requires Wf(k)
  {
    var d := k.procs[p];
    && Ready(k)[p] == (if d.state == Active && p !in off then 1 else 0)
    && Waiting(k)[p] == (if Blocked(d.state) && p !in off then 1 else 0)
    && (d.timeout.Some? ==> d.state == Receiving)
    && (Blocked(d.state) ==> d.buf.Some?)
  }

  /** PidOk for every process. */
  predicate Queues(k: Kernel, off: set<Pid>)
    requires Wf(k)
  {
    forall p: Pid :: PidOk(k, p, off)
  }

  /** The idle process is IDLING at the idle priority, and no other process has that priority. */
  predicate IdleOk(k: Kernel)
    requires Wf(k)
  {
    && k.procs[k.idle].state == Idling && k.procs[k.idle].priority == P_IDLE
    && forall p: Pid :: p != k.idle ==> k.procs[p].priority != P_IDLE
  }

  /** Every process on a ready queue has that queue's priority. */
  predicate Placed(k: Kernel)
    requires Wf(k)
  {
    forall q, x :: 0 <= q < NPRIO && x in k.readyq[q] ==> k.procs[x].priority == q
  }

  /** The invariant apart from the current process. */
  predicate Core(k: Kernel, off: set<Pid>)
  {
    Wf(k) && IdleOk(k) && TimersOk(k) && Placed(k) && Queues(k, off)
  }

  /** The invariant between system calls: the current process is running, ACTIVE unless it is the idle process. */
  predicate Inv(k: Kernel)
  {
    && k.current.Some? && Core(k, {k.current.value})
    && (k.procs[k.current.value].state == Active || k.current.value == k.idle)
  }

  /** The invariant at the point where choose_proc is called: no process is running. */
  predicate PreChoose(k: Kernel)
  {
    Core(k, {})
  }

  // ---------------------------------------------------------------------
  // Frames

  /** Placed depends only on the ready queues and the priorities. */
  lemma PlacedSame(k: Kernel, k': Kernel)
    requires Wf(k) && Wf(k') && Placed(k) && k'.readyq == k.readyq
    requires forall x: Pid :: k'.procs[x].priority == k.procs[x].priority
    ensures Placed(k')
  {
  }

  /** A queue of p's priority that gains only p keeps every queued process at its queue's priority. */
  lemma PlacedJoin(k: Kernel, k': Kernel, p: Pid, q': seq<Pid>)
    requires Wf(k) && Wf(k') && Placed(k) && k.procs[p].priority != P_IDLE
    requires forall x: Pid :: k'.procs[x].priority == k.procs[x].priority
    requires k'.readyq == k.readyq[k.procs[p].priority := q']
    requires forall x :: x in q' ==> x == p || x in k.readyq[k.procs[p].priority]
    ensures Placed(k')
  {
    var prio := k.procs[p].priority;
    forall q, x | 0 <= q < NPRIO && x in k'.readyq[q]
      ensures k'.procs[x].priority == q
    {
      if q == prio {
        assert x == p || x in k.readyq[prio];
      } else {
        assert x in k.readyq[q];
      }
    }
  }

  /** make_ready puts p on the queue of its own priority. */
  lemma MakeReadyPlaced(k: Kernel, p: Pid)
    requires Wf(k) && Placed(k)
    ensures Placed(MakeReady(k, p))
  {
    var r := MakeReady(k, p);
    var prio := k.procs[p].priority;
    if prio != P_IDLE {
      PlacedJoin(k, r, p, k.readyq[prio] + [p]);
    }
  }

  /** The timer invariant depends only on the timers, the timeout table, ticks and nextTime. */
  lemma TimersSame(k: Kernel, k': Kernel)
    requires Wf(k) && Wf(k') && TimersOk(k)
    requires k'.timeouts == k.timeouts && k'.nextTime == k.nextTime
    requires forall p: Pid :: k'.procs[p].timeout == k.procs[p].timeout
    ensures TimersOk(k')
  {
  }

  /**
   * Removing p's timer together with its entry in the timeout table keeps
   * the timer invariant; a process without a timer leaves the table as
   * it was.
   */
  lemma TimersCancelled(k: Kernel, k': Kernel, p: Pid)
    requires Wf(k) && Wf(k') && TimersOk(k)
    requires k'.nextTime == k.nextTime && k'.procs[p].timeout.None?
    requires forall x: Pid :: x != p ==> k'.procs[x].timeout == k.procs[x].timeout
    requires k.procs[p].timeout.Some? ==> multiset(k'.timeouts) + multiset{p} == multiset(k.timeouts) && NoDup(k'.timeouts)
    requires k.procs[p].timeout.None? ==> k'.timeouts == k.timeouts
    ensures TimersOk(k')
  {
    if k.procs[p].timeout.Some? {
      assert p in k.timeouts;
      NoDupCount(k.timeouts, p);
      assert multiset(k'.timeouts)[p] == 0;
      forall x | x in k'.timeouts
        ensures x in k.timeouts && x != p
      {
        assert multiset(k'.timeouts)[x] > 0;
        assert multiset(k.timeouts)[x] > 0;
      }
      forall x: Pid | k'.procs[x].timeout.Some?
        ensures x in k'.timeouts
      {
        assert x in k.timeouts;
        assert multiset(k.timeouts)[x] > 0;
        assert multiset(k'.timeouts)[x] > 0;
      }
    }
  }

  /** In a duplicate-free sequence, each element occurs once. */
  lemma {:induction false} NoDupCount(s: seq<Pid>, x: Pid)
    requires NoDup(s) && x in s
    ensures multiset(s)[x] == 1
  {
    var i :| 0 <= i < |s| && s[i] == x;
    assert s == s[..i] + [x] + s[i + 1..];
    assert x !in s[..i] && x !in s[i + 1..];
  }

  // ---------------------------------------------------------------------
  // choose_proc

  /** When every ready queue is empty, no pid is ready. */
  lemma ReadyEmpty(k: Kernel)
    requires Wf(k) && forall q :: 0 <= q < NPRIO ==> k.readyq[q] == []
    ensures Ready(k) == multiset{}
  {
    var qs: seq<seq<Pid>> := k.readyq;
    assert qs[..2][..1] == qs[..1] && qs[..1][..0] == [];
    assert ReadyBag(qs[..1]) == multiset{};
    assert ReadyBag(qs[..2]) == multiset{};
  }

  /** choose_proc takes a state with nobody running to one where the chosen process runs. */
  lemma ChooseKeepsInv(k: Kernel)
    requires PreChoose(k)
    ensures Inv(ChooseProc(k))
  {
    var r := ChooseProc(k);
    var f := FirstNonEmpty(k.readyq, 0);
    TimersSame(k, r);
    if f.None? {
      ReadyEmpty(k);
      forall p: Pid ensures PidOk(r, p, {r.current.value}) {
        assert PidOk(k, p, {});
      }
    } else {
      var h := r.current.value;
      assert Ready(k)[h] == Ready(r)[h] + 1;
      assert PidOk(k, h, {});
      forall p: Pid ensures PidOk(r, p, {r.current.value}) {
        assert PidOk(k, p, {});
      }
    }
  }

  /**
   * choose_proc runs the most urgent process there is: no ACTIVE process
   * has a more urgent priority than the one it picks, and it picks the
   * idle process exactly when no process is ACTIVE.
   */
  lemma ChooseRunsMostUrgent(k: Kernel)
    requires PreChoose(k)
    ensures var r := ChooseProc(k); var c := r.current.value;
      forall x: Pid :: r.procs[x].state == Active ==> r.procs[c].priority <= r.procs[x].priority
    ensures ChooseProc(k).current.value == k.idle <==> forall x: Pid :: k.procs[x].state != Active
  {
    var r := ChooseProc(k);
    var c := r.current.value;
    var f := FirstNonEmpty(k.readyq, 0);
    forall x: Pid | k.procs[x].state == Active
      ensures exists q :: 0 <= q < NPRIO && x in k.readyq[q]
    {
      assert PidOk(k, x, {});
      ReadyBagIn(k.readyq, x);
    }
    if f.Some? {
      assert k.procs[c].priority == f.value;
      assert k.procs[k.idle].priority == P_IDLE;
      assert PidOk(k, c, {});
    } else {
      assert k.procs[k.idle].state == Idling;
    }
  }

  // ---------------------------------------------------------------------
  // send

  /** Setting the buffer of a running process that is not a blocked sender keeps the invariant. */
  lemma SetBufKeeps(k: Kernel, buf: Option<Message>)
    requires k.current.Some? && Core(k, {k.current.value}) && !Blocked(k.procs[k.current.value].state)
    ensures Core(SetBuf(k, buf), {k.current.value})
  {
    var r := SetBuf(k, buf);
    TimersSame(k, r);
    forall p: Pid ensures PidOk(r, p, {k.current.value}) {
      assert PidOk(k, p, {k.current.value});
    }
  }

  /** mini_send from a running process other than the idle process leaves nobody running and the invariant intact. */
  lemma SendKeepsInv(k: Kernel, dest: int, msg: Message)
    requires Inv(k) && k.current.value != k.idle && SendStep(k, dest, msg).Ok?
    ensures PreChoose(SendStep(k, dest, msg).value)
  {
    var cur := k.current.value;
    var k1 := SetBuf(k, Some(msg));
    SetBufKeeps(k, Some(msg));
    RunningFacts(k);
    if Accept(k1.procs[dest], msg.mtype) {
      SendHandoffKeeps(k1, dest, cur);
      assert SendStep(k, dest, msg).value == MakeReady(Handoff(k1, dest, cur, true).value, cur);
    } else {
      EnqueueKeeps(k1, dest, Sending);
    }
  }
  /** send to a receiver: it gets the message and the sender stays ready, with every book settled. */
  lemma SendHandoffKeeps(k: Kernel, dest: Pid, cur: Pid)
    requires Core(k, {cur}) && k.procs[dest].state == Receiving && k.procs[cur].state == Active
    requires k.procs[cur].buf.Some? && k.procs[cur].priority != P_IDLE && k.procs[cur].timeout.None?
    requires Handoff(k, dest, cur, true).Ok?
    ensures PreChoose(MakeReady(Handoff(k, dest, cur, true).value, cur))
  {
    HandoffKeeps(k, {cur}, dest, cur, true);
    MakeReadyKeeps(Handoff(k, dest, cur, true).value, {cur}, cur);
    assert {cur} - {cur} == {};
  }


  /**
   * A handoff from the running process src to a receiver that accepts,
   * with the receiver's timer cancelled, puts the receiver on its ready
   * queue and leaves src as it was.
   */
  lemma HandoffKeeps(k: Kernel, off: set<Pid>, dst: Pid, src: Pid, cancel: bool)
    requires Core(k, off) && src in off && dst !in off && k.procs[dst].state == Receiving
    requires k.procs[src].buf.Some? && Handoff(k, dst, src, cancel).Ok?
    requires cancel || k.procs[dst].timeout.None?
    ensures var k2 := Handoff(k, dst, src, cancel).value;
      Core(k2, off) && k2.procs[src] == k.procs[src] && k2.idle == k.idle
  {
    HandoffPrepared(k, dst, src, cancel);
    PrepareKeeps(k, off, dst, src, cancel);
    DeliverKeeps(Prepared(k, dst, cancel), off + {dst}, dst, src);
    HandoffEffect(k, dst, src, cancel);
  }

  /** The receiver before the message is copied: its timer cancelled when asked. */
  function Prepared(k: Kernel, dst: Pid, cancel: bool): (r: Kernel)
    requires Wf(k)
    ensures Wf(r) && r.procs == k.procs[dst := r.procs[dst]]
  {
    if cancel && CancelIfSet(k, dst).Ok? then CancelIfSet(k, dst).value else k
  }

  /** Taking the receiver off the invariant and cancelling its timer leaves it ready for deliver. */
  lemma PrepareKeeps(k: Kernel, off: set<Pid>, dst: Pid, src: Pid, cancel: bool)
    requires Core(k, off) && src in off && dst !in off && k.procs[dst].state == Receiving
    requires k.procs[src].buf.Some? && (cancel ==> CancelIfSet(k, dst).Ok?)
    requires cancel || k.procs[dst].timeout.None?
    ensures var k1 := Prepared(k, dst, cancel);
      && Core(k1, off + {dst}) && k1.procs[dst].timeout.None? && k1.procs[dst].priority != P_IDLE
      && k1.procs[src].buf.Some? && off + {dst} - {dst} == off
  {
    ReleaseReceiver(k, off, dst);
    if cancel {
      CancelKeeps(k, off + {dst}, dst);
    }
  }

  /** The handoff is the delivery to the prepared kernel. */
  lemma HandoffPrepared(k: Kernel, dst: Pid, src: Pid, cancel: bool)
    requires Wf(k) && k.procs[src].buf.Some? && Handoff(k, dst, src, cancel).Ok?
    ensures cancel ==> CancelIfSet(k, dst).Ok?
    ensures Handoff(k, dst, src, cancel).value == Deliver(Prepared(k, dst, cancel), dst, src)
  {
  }

  /** A receiving process off the books is not the idle process and may be put back on them. */
  lemma ReleaseReceiver(k: Kernel, off: set<Pid>, dst: Pid)
    requires Core(k, off) && dst !in off && k.procs[dst].state == Receiving
    ensures dst != k.idle && k.procs[dst].priority != P_IDLE && Core(k, off + {dst}) && off + {dst} - {dst} == off
  {
    assert PidOk(k, dst, off) && dst != k.idle;
    Release(k, off, dst);
  }


  /** Joining a waiting list as a blocked sender keeps the invariant, with nobody running. */
  lemma EnqueueKeeps(k: Kernel, dest: Pid, st: State)
    requires k.current.Some? && Core(k, {k.current.value}) && k.procs[k.current.value].state == Active
    requires Blocked(st) && k.procs[k.current.value].buf.Some?
    ensures PreChoose(Enqueue(k, dest, st))
  {
    var r := Enqueue(k, dest, st);
    TimersSame(k, r);
    PlacedSame(k, r);
    forall p: Pid ensures PidOk(r, p, {}) {
      EnqueuePid(k, dest, st, p);
    }
  }

  /** EnqueueKeeps for one process. */
  lemma EnqueuePid(k: Kernel, dest: Pid, st: State, p: Pid)
    requires Wf(k) && k.current.Some? && PidOk(k, p, {k.current.value}) && k.procs[k.current.value].state == Active
    requires Blocked(st) && k.procs[k.current.value].buf.Some?
    ensures PidOk(Enqueue(k, dest, st), p, {})
  {
  }

  // ---------------------------------------------------------------------
  // The primitives, one step at a time

  /**
   * Replacing p's descriptor by one with the same waiting list and timer
   * keeps the invariant, when p is off the queues or keeps its state and
   * the new descriptor is consistent: a blocked sender keeps a buffer,
   * and the idle priority stays the idle process's alone.
   */
  lemma SetProcKeeps(k: Kernel, off: set<Pid>, p: Pid, d: Desc)
    requires Core(k, off)
    requires d.waiting == k.procs[p].waiting && d.timeout == k.procs[p].timeout
    requires p in off || d.state == k.procs[p].state
    requires (d.timeout.Some? ==> d.state == Receiving) && (Blocked(d.state) ==> d.buf.Some?)
    requires p == k.idle ==> d.state == Idling && d.priority == P_IDLE
    requires p != k.idle ==> d.priority != P_IDLE
    requires p in off || d.priority == k.procs[p].priority
    ensures Core(SetProc(k, p, d), off)
  {
    var r := SetProc(k, p, d);
    TimersSame(k, r);
    if p in off {
      assert PidOk(k, p, off);
      NotReady(k, p);
    }
    forall x: Pid ensures PidOk(r, x, off) {
      assert PidOk(k, x, off);
    }
  }

  /** A process that is neither ACTIVE nor a blocked sender is on no queue, whether or not it counts as off. */
  lemma Release(k: Kernel, off: set<Pid>, p: Pid)
    requires Core(k, off) && k.procs[p].state != Active && !Blocked(k.procs[p].state)
    ensures Core(k, off - {p}) && Core(k, off + {p})
  {
    forall x: Pid ensures PidOk(k, x, off - {p}) && PidOk(k, x, off + {p}) {
      assert PidOk(k, x, off);
    }
  }

  /** make_ready of a process that is off the queues and has no timer puts it back on its ready queue. */
  lemma MakeReadyKeeps(k: Kernel, off: set<Pid>, p: Pid)
    requires Core(k, off) && p in off && k.procs[p].priority != P_IDLE && k.procs[p].timeout.None?
    ensures Core(MakeReady(k, p), off - {p})
  {
    var r := MakeReady(k, p);
    TimersSame(k, r);
    MakeReadyPlaced(k, p);
    forall x: Pid ensures PidOk(r, x, off - {p}) {
      assert PidOk(k, x, off);
    }
  }

  /** The sender find_sender unlinks was a blocked sender on the queues, and it is now off them. */
  lemma FindSenderKeeps(k: Kernel, off: set<Pid>, dst: Pid, mtype: int)
    requires Core(k, off) && dst in off && WaitersHaveBuf(k, dst) && FindSender(k, dst, mtype).1.Some?
    ensures var (k1, s) := FindSender(k, dst, mtype);
      && s.value !in off && s.value != dst && Blocked(k.procs[s.value].state)
      && k1.procs[s.value] == k.procs[s.value] && Core(k1, off + {s.value})
      && k1.procs[dst] == k.procs[dst].(waiting := k1.procs[dst].waiting) && k1.idle == k.idle
  {
    var r := FindSender(k, dst, mtype);
    FindSenderUnlinks(k, dst, mtype);
    UnlinkKeeps(k, r.0, off, r.1.value);
  }

  /** What find_sender does, in the terms UnlinkKeeps uses. */
  lemma FindSenderUnlinks(k: Kernel, dst: Pid, mtype: int)
    requires Wf(k) && WaitersHaveBuf(k, dst) && FindSender(k, dst, mtype).1.Some?
    ensures var r := FindSender(k, dst, mtype);
      Unlinked(k, r.0, r.1.value) && (r.1.value != dst ==> r.0.procs[r.1.value] == k.procs[r.1.value])
  {
    var (k1, s) := FindSender(k, dst, mtype);
    var w := k.procs[dst].waiting;
    var i := FirstMatch(k, w, mtype, 0).value;
    assert s.value == w[i] && s.value in w;
    WaitBagHas(k.procs, dst);
  }

  /** k' is k with src taken off a waiting list, and nothing else changed that the invariant reads. */
  predicate Unlinked(k: Kernel, k': Kernel, src: Pid)
  {
    && Wf(k) && Wf(k') && k'.readyq == k.readyq && k'.idle == k.idle
    && k'.timeouts == k.timeouts && k'.nextTime == k.nextTime
    && (forall y: Pid :: k'.procs[y] == k.procs[y].(waiting := k'.procs[y].waiting))
    && Waiting(k')[src] + 1 == Waiting(k)[src]
    && (forall y: Pid :: y != src ==> Waiting(k')[y] == Waiting(k)[y])
  }

  /** Taking a blocked sender off its waiting list makes it off the queues. */
  lemma UnlinkKeeps(k: Kernel, k': Kernel, off: set<Pid>, src: Pid)
    requires Core(k, off) && Unlinked(k, k', src)
    ensures src !in off && Blocked(k.procs[src].state) && Core(k', off + {src})
  {
    assert PidOk(k, src, off);
    TimersSame(k, k');
    forall x: Pid ensures PidOk(k', x, off + {src}) {
      assert PidOk(k, x, off);
    }
  }

  /** Copying a message into a buffer keeps the invariant: a buffer that was there still is. */
  lemma CopyMessageKeeps(k: Kernel, off: set<Pid>, dst: Pid, src: Pid)
    requires Core(k, off) && k.procs[src].buf.Some?
    ensures Core(CopyMessage(k, dst, src), off)
  {
    var d := k.procs[dst].(buf := Copied(k, dst, src));
    assert PidOk(k, dst, off);
    SetProcKeeps(k, off, dst, d);
    assert CopyMessage(k, dst, src) == SetProc(k, dst, d);
  }

  /** Stamping a special message into a buffer keeps the invariant. */
  lemma DeliverSpecialKeeps(k: Kernel, off: set<Pid>, dst: Pid, src: int, mtype: int)
    requires Core(k, off)
    ensures Core(DeliverSpecial(k, dst, src, mtype), off)
  {
    var d := k.procs[dst].(buf := Stamped(k.procs[dst].buf, src, mtype));
    assert PidOk(k, dst, off);
    SetProcKeeps(k, off, dst, d);
    assert DeliverSpecial(k, dst, src, mtype) == SetProc(k, dst, d);
  }

  /** deliver to a receiver that is off the queues and has no timer puts it back on its ready queue. */
  lemma DeliverKeeps(k: Kernel, off: set<Pid>, dst: Pid, src: Pid)
    requires Core(k, off) && k.procs[src].buf.Some? && dst in off
    requires k.procs[dst].priority != P_IDLE && k.procs[dst].timeout.None?
    ensures Core(Deliver(k, dst, src), off - {dst})
  {
    CopyMessageKeeps(k, off, dst, src);
    MakeReadyKeeps(CopyMessage(k, dst, src), off, dst);
  }

  /** Cancelling a timer keeps the invariant. */
  lemma CancelKeeps(k: Kernel, off: set<Pid>, p: Pid)
    requires Core(k, off) && CancelIfSet(k, p).Ok?
    ensures Core(CancelIfSet(k, p).value, off)
  {
    var r := CancelIfSet(k, p).value;
    if k.procs[p].timeout.Some? {
      CancelTimeoutKeepsTimers(k, p);
    }
    forall x: Pid ensures PidOk(r, x, off) {
      assert PidOk(k, x, off);
    }
  }

  /** Setting the timer of a receiving caller keeps the invariant. */
  lemma SetTimeoutKeeps(k: Kernel, off: set<Pid>, ms: int)
    requires Core(k, off) && k.current.Some? && k.procs[k.current.value].state == Receiving
    requires SetTimeout(k, ms).Ok?
    ensures Core(SetTimeout(k, ms).value, off)
  {
    var r := SetTimeout(k, ms).value;
    SetTimeoutKeepsTimers(k, ms);
    forall x: Pid ensures PidOk(r, x, off) {
      assert PidOk(k, x, off);
    }
  }

  /**
   * await_reply of a process that is off the queues and has no timer
   * leaves it either back on a ready queue with its reply, or RECEIVING
   * for one; either way it is no longer off.
   */
  lemma AwaitReplyKeeps(k: Kernel, off: set<Pid>, p: Pid)
    requires Core(k, off) && p in off && WaitersHaveBuf(k, p)
    requires k.procs[p].priority != P_IDLE && k.procs[p].timeout.None?
    ensures Core(AwaitReply(k, p), off - {p})
  {
    var r := FindSender(k, p, REPLY);
    if r.1.Some? {
      ReplyFoundKeeps(k, off, p);
    } else {
      var d := k.procs[p].(state := Receiving, filter := REPLY);
      SetProcKeeps(k, off, p, d);
      assert AwaitReply(k, p) == SetProc(k, p, d);
      Release(SetProc(k, p, d), off, p);
    }
  }

  /** The branch of await_reply that finds the reply already waiting. */
  lemma ReplyFoundKeeps(k: Kernel, off: set<Pid>, p: Pid)
    requires Core(k, off) && p in off && WaitersHaveBuf(k, p)
    requires k.procs[p].priority != P_IDLE && k.procs[p].timeout.None?
    requires FindSender(k, p, REPLY).1.Some?
    ensures var r := FindSender(k, p, REPLY);
      Core(MakeReady(Deliver(r.0, p, r.1.value), r.1.value), off - {p})
  {
    var r := FindSender(k, p, REPLY);
    var k1, src := r.0, r.1.value;
    FindSenderKeeps(k, off, p, REPLY);
    assert PidOk(k, src, off);
    ReplyDeliverKeeps(k1, off, p, src);
  }

  /** The found replier's message goes to p, and both are made ready. */
  lemma ReplyDeliverKeeps(k: Kernel, off: set<Pid>, p: Pid, src: Pid)
    requires Core(k, off + {src}) && p in off && src !in off && src != p
    requires k.procs[src].buf.Some? && k.procs[src].priority != P_IDLE && k.procs[src].timeout.None?
    requires k.procs[p].priority != P_IDLE && k.procs[p].timeout.None?
    ensures Core(MakeReady(Deliver(k, p, src), src), off - {p})
  {
    DeliverKeeps(k, off + {src}, p, src);
    var k3 := Deliver(k, p, src);
    assert k3.procs[src] == k.procs[src];
    MakeReadyKeeps(k3, off + {src} - {p}, src);
    assert off + {src} - {p} - {src} == off - {p};
  }

  /** Variables the invariant does not read (the handler table, the reschedule flag, the heap) change freely. */
  lemma OthersKeep(k: Kernel, k': Kernel, off: set<Pid>)
    requires Core(k, off) && Wf(k') && k'.procs == k.procs && k'.readyq == k.readyq && k'.idle == k.idle
    requires k'.timeouts == k.timeouts && k'.nextTime == k.nextTime
    ensures Core(k', off)
  {
    TimersSame(k, k');
    forall x: Pid ensures PidOk(k', x, off) {
      assert PidOk(k, x, off);
    }
  }

  /** Under the invariant the caller has no timer, is on no queue, and is not the idle process unless it is IDLING. */
  lemma RunningFacts(k: Kernel)
    requires Inv(k)
    ensures var cur := k.current.value;
      && k.procs[cur].timeout.None? && Waiting(k)[cur] == 0 && Ready(k)[cur] == 0
      && !Blocked(k.procs[cur].state)
      && (cur != k.idle ==> k.procs[cur].state == Active && k.procs[cur].priority != P_IDLE)
  {
    assert PidOk(k, k.current.value, {k.current.value});
  }

  /** What the C code takes for granted of the caller holds under the invariant. */
  lemma InvCallable(k: Kernel)
    requires Inv(k)
    ensures Callable(k)
  {
    RunningFacts(k);
    forall p: Pid ensures WaitersHaveBuf(k, p) {
      forall x | x in k.procs[p].waiting ensures k.procs[x].buf.Some? {
        WaitBagHas(k.procs, p);
        assert Waiting(k)[x] > 0;
        assert PidOk(k, x, {k.current.value});
      }
    }
  }

  // ---------------------------------------------------------------------
  // receive

  /** mini_receive from a running process other than the idle process keeps the invariant. */
  lemma ReceiveKeepsInv(k: Kernel, mtype: int, buf: Option<Message>, timeout: int)
    requires Inv(k) && k.current.value != k.idle && Callable(k)
    requires Receive(k, mtype, buf, timeout).Ok?
    ensures Inv(Receive(k, mtype, buf, timeout).value)
  {
    var cur := k.current.value;
    RunningFacts(k);
    var k1 := SetBuf(k, buf);
    SetBufKeeps(k, buf);
    if TakesPending(k1, mtype) {
      var d := k1.procs[cur].(pending := false);
      SetProcKeeps(k1, {cur}, cur, d);
      DeliverSpecialKeeps(SetProc(k1, cur, d), {cur}, cur, HARDWARE, INTERRUPT);
      assert TakeInterrupt(k1) == DeliverSpecial(SetProc(k1, cur, d), cur, HARDWARE, INTERRUPT);
    } else {
      ReceiveReady(k, buf, mtype);
      var (k2, s) := Sender(k1, mtype);
      if s.Some? {
        ReceiveCollectKeeps(k1, mtype);
        ChooseKeepsInv(Collect(k2, cur, s.value).value);
      } else if timeout == 0 {
        DeliverSpecialKeeps(k1, {cur}, cur, HARDWARE, TIMEOUT);
      } else {
        BlockKeeps(k1, mtype, timeout);
        ChooseKeepsInv(Block(k1, mtype, timeout).value);
      }
    }
  }

  /** The branch of mini_receive that finds a waiting sender leaves nobody running. */
  lemma ReceiveCollectKeeps(k: Kernel, mtype: int)
    requires k.current.Some? && Core(k, {k.current.value}) && k.current.value != k.idle
    requires k.procs[k.current.value].state == Active && k.procs[k.current.value].priority != P_IDLE
    requires k.procs[k.current.value].timeout.None?
    requires WaitersHaveBuf(k, k.current.value) && Sender(k, mtype).1.Some?
    requires var (k2, s) := Sender(k, mtype);
      && k2.procs[s.value].buf.Some? && s.value != k.current.value
      && k.current.value !in k2.procs[s.value].waiting && WaitersHaveBuf(k2, s.value)
    ensures var (k2, s) := Sender(k, mtype);
      Collect(k2, k.current.value, s.value).Ok? && PreChoose(Collect(k2, k.current.value, s.value).value)
  {
    var cur := k.current.value;
    var (k2, s) := Sender(k, mtype);
    var src := s.value;
    FindSenderKeeps(k, {cur}, cur, mtype);
    assert {cur} + {src} == {cur, src};
    CollectKeeps(k2, {cur, src}, cur, src);
    assert {cur, src} - {cur} - {src} == {};
  }

  /**
   * The receiver dst, off the queues, takes the message of the sender
   * src that find_sender took off dst's list: both end up back where
   * their new states say.
   */
  lemma CollectKeeps(k: Kernel, off: set<Pid>, dst: Pid, src: Pid)
    requires Core(k, off) && dst in off && src in off && src != dst
    requires k.procs[src].buf.Some? && dst !in k.procs[src].waiting && WaitersHaveBuf(k, src)
    requires k.procs[dst].state == Active && k.procs[dst].priority != P_IDLE && k.procs[dst].timeout.None?
    requires Blocked(k.procs[src].state)
    ensures Collect(k, dst, src).Ok? && Core(Collect(k, dst, src).value, off - {dst} - {src})
  {
    var k3 := Deliver(k, dst, src);
    DeliverKeeps(k, off, dst, src);
    assert k3.procs[src] == k.procs[src];
    assert PidOk(k, src, off) && src != k.idle;
    if k.procs[src].state == Sending {
      assert Collect(k, dst, src) == Ok(MakeReady(k3, src));
      MakeReadyKeeps(k3, off - {dst}, src);
    } else {
      CollectRequestKeeps(k, k3, off, dst, src);
    }
  }

  /** The SENDREC half of CollectKeeps: the sender goes on to await its reply. */
  lemma CollectRequestKeeps(k: Kernel, k3: Kernel, off: set<Pid>, dst: Pid, src: Pid)
    requires Wf(k) && k.procs[src].buf.Some? && dst !in k.procs[src].waiting && WaitersHaveBuf(k, src)
    requires src != dst && k.procs[src].state == SendRec && k3 == Deliver(k, dst, src)
    requires k3.procs[src] == k.procs[src] && Core(k3, off - {dst}) && src in off - {dst}
    ensures Collect(k, dst, src).Ok? && Core(Collect(k, dst, src).value, off - {dst} - {src})
  {
    assert PidOk(k3, src, off - {dst}) && k3.procs[src].timeout.None?;
    assert src != k3.idle && k3.procs[src].priority != P_IDLE;
    assert WaitersHaveBuf(k3, src) by {
      assert forall x :: x in k3.procs[src].waiting ==> k3.procs[x] == k.procs[x];
    }
    AwaitReplyKeeps(k3, off - {dst}, src);
    assert Collect(k, dst, src) == Ok(AwaitReply(k3, src));
  }

  /** A caller that blocks in receive, with or without a timer, leaves nobody running. */
  lemma BlockKeeps(k: Kernel, mtype: int, timeout: int)
    requires k.current.Some? && Core(k, {k.current.value}) && k.current.value != k.idle
    requires k.procs[k.current.value].timeout.None? && k.procs[k.current.value].priority != P_IDLE
    requires Block(k, mtype, timeout).Ok?
    ensures PreChoose(Block(k, mtype, timeout).value)
  {
    var cur := k.current.value;
    var d := k.procs[cur].(state := Receiving, filter := mtype);
    SetProcKeeps(k, {cur}, cur, d);
    var k1 := SetProc(k, cur, d);
    var r := Block(k, mtype, timeout).value;
    if timeout > 0 {
      SetTimeoutKeeps(k1, {cur}, timeout);
    }
    Release(r, {cur}, cur);
    assert {cur} - {cur} == {};
  }

  // ---------------------------------------------------------------------
  // sendrec

  /** The corrected mini_sendrec from a running process other than the idle process leaves nobody running and the invariant intact. */
  lemma SendRecKeepsInv(k: Kernel, dest: int, msg: Message)
    requires Inv(k) && k.current.value != k.idle && Callable(k) && SendRecStep(k, dest, msg, true).Ok?
    ensures PreChoose(SendRecStep(k, dest, msg, true).value)
  {
    var cur := k.current.value;
    RunningFacts(k);
    var k1 := SetBuf(k, Some(msg));
    SetBufKeeps(k, Some(msg));
    if Accept(k1.procs[dest], msg.mtype) {
      SendRecReady(k, dest, msg, true);
      SendRecHandoffKeeps(k1, dest, cur);
      assert SendRecStep(k, dest, msg, true).value == AwaitReply(Handoff(k1, dest, cur, true).value, cur);
    } else {
      EnqueueKeeps(k1, dest, SendRec);
    }
  }

  /** sendrec to a receiver: it gets the request and the caller waits for the reply, with every book settled. */
  lemma SendRecHandoffKeeps(k: Kernel, dest: Pid, cur: Pid)
    requires Core(k, {cur}) && k.procs[dest].state == Receiving && k.procs[cur].state == Active
    requires k.procs[cur].buf.Some? && k.procs[cur].priority != P_IDLE && k.procs[cur].timeout.None?
    requires Handoff(k, dest, cur, true).Ok? && WaitersHaveBuf(Handoff(k, dest, cur, true).value, cur)
    ensures PreChoose(AwaitReply(Handoff(k, dest, cur, true).value, cur))
  {
    var k2 := Handoff(k, dest, cur, true).value;
    HandoffKeeps(k, {cur}, dest, cur, true);
    assert {cur} - {cur} == {};
    AwaitReplyKeeps(k2, {cur}, cur);
  }

  // ---------------------------------------------------------------------
  // Interrupts, connect and priority

  /** The corrected interrupt keeps the invariant, whichever process it interrupts. */
  lemma InterruptKeepsInv(k: Kernel, dest: int)
    requires Inv(k) && Interrupt(k, dest).Ok?
    ensures Inv(Interrupt(k, dest).value)
  {
    var cur := k.current.value;
    RunningFacts(k);
    var pd: Pid := dest;
    assert PidOk(k, pd, {cur});
    if Accept(k.procs[pd], INTERRUPT) {
      InterruptAcceptedKeeps(k, pd);
      var k3 := MakeReady(DeliverSpecial(CancelIfSet(k, pd).value, pd, HARDWARE, INTERRUPT), pd);
      var r := k3.(resched := k3.resched || k.procs[cur].priority > P_HANDLER);
      OthersKeep(k3, r, {cur});
      assert Interrupt(k, dest).value == r;
    } else {
      SetProcKeeps(k, {cur}, pd, k.procs[pd].(pending := true));
    }
  }

  /** A handler that accepts the interrupt loses its timer, gets INTERRUPT and is made ready. */
  lemma InterruptAcceptedKeeps(k: Kernel, pd: Pid)
    requires Inv(k) && k.procs[pd].state == Receiving && CancelIfSet(k, pd).Ok?
    ensures var k3 := MakeReady(DeliverSpecial(CancelIfSet(k, pd).value, pd, HARDWARE, INTERRUPT), pd);
      Core(k3, {k.current.value}) && k3.current == k.current && k3.procs[k.current.value] == k.procs[k.current.value]
  {
    var cur := k.current.value;
    ReceiverOff(k, pd);
    CancelKeeps(k, {cur} + {pd}, pd);
    WakeKeeps(CancelIfSet(k, pd).value, {cur} + {pd}, pd, HARDWARE, INTERRUPT);
    assert {cur} + {pd} - {pd} == {cur};
  }

  /** A receiving process is neither the running nor the idle process, and may be taken off the books. */
  lemma ReceiverOff(k: Kernel, pd: Pid)
    requires Inv(k) && k.procs[pd].state == Receiving
    ensures var cur := k.current.value;
      pd != cur && pd != k.idle && k.procs[pd].priority != P_IDLE && Core(k, {cur} + {pd})
  {
    var cur := k.current.value;
    RunningFacts(k);
    assert PidOk(k, pd, {cur}) && pd != k.idle && pd != cur;
    Release(k, {cur}, pd);
  }

  /** Delivering a special message to a released process and readying it settles its books and touches no one else. */
  lemma WakeKeeps(k: Kernel, off: set<Pid>, pd: Pid, src: int, mtype: int)
    requires Core(k, off) && pd in off && k.procs[pd].priority != P_IDLE && k.procs[pd].timeout.None?
    ensures var r := MakeReady(DeliverSpecial(k, pd, src, mtype), pd);
      && Core(r, off - {pd}) && r.current == k.current
      && forall x: Pid :: x != pd ==> r.procs[x] == k.procs[x]
  {
    DeliverSpecialKeeps(k, off, pd, src, mtype);
    MakeReadyKeeps(DeliverSpecial(k, pd, src, mtype), off, pd);
  }

  /** default_handler keeps the invariant. */
  lemma DefaultHandlerKeepsInv(k: Kernel, irq: int)
    requires Inv(k) && irq < N_INTERRUPTS && DefaultHandler(k, irq).Ok?
    ensures Inv(DefaultHandler(k, irq).value)
  {
    InterruptKeepsInv(k, k.handler[irq]);
  }

  /** connect keeps the invariant. */
  lemma ConnectKeepsInv(k: Kernel, irq: int)
    requires Inv(k) && k.current.value != k.idle && irq < N_INTERRUPTS && Connect(k, irq).Ok?
    ensures Inv(Connect(k, irq).value)
  {
    var cur := k.current.value;
    RunningFacts(k);
    var d := k.procs[cur].(priority := P_HANDLER);
    SetProcKeeps(k, {cur}, cur, d);
    OthersKeep(SetProc(k, cur, d), Connect(k, irq).value, {cur});
  }

  /** priority keeps the invariant. */
  lemma SetPriorityKeepsInv(k: Kernel, p: int)
    requires Inv(k) && k.current.value != k.idle && SetPriority(k, p).Ok?
    ensures Inv(SetPriority(k, p).value)
  {
    var cur := k.current.value;
    RunningFacts(k);
    SetProcKeeps(k, {cur}, cur, k.procs[cur].(priority := p));
  }

  // ---------------------------------------------------------------------
  // yield, exit and the context switch

  /** The running process goes back on its ready queue (the idle process on none), leaving nobody running. */
  lemma RequeueKeeps(k: Kernel)
    requires Inv(k)
    ensures PreChoose(MakeReady(k, k.current.value))
  {
    var cur := k.current.value;
    RunningFacts(k);
    assert {cur} - {cur} == {};
    if cur == k.idle {
      Release(k, {cur}, cur);
    } else {
      MakeReadyKeeps(k, {cur}, cur);
    }
  }

  /** yield keeps the invariant, for the idle process too. */
  lemma YieldKeepsInv(k: Kernel)
    requires Inv(k)
    ensures Inv(Yield(k))
  {
    RequeueKeeps(k);
    ChooseKeepsInv(MakeReady(k, k.current.value));
  }

  /** cxt_switch keeps the invariant. */
  lemma CxtSwitchKeepsInv(k: Kernel)
    requires Inv(k)
    ensures Inv(CxtSwitch(k))
  {
    var k0 := k.(resched := false);
    OthersKeep(k, k0, {k.current.value});
    RequeueKeeps(k0);
    ChooseKeepsInv(MakeReady(k0, k.current.value));
  }

  /** exit keeps the invariant, and the caller is DEAD afterwards. */
  lemma ExitKeepsInv(k: Kernel)
    requires Inv(k) && k.current.value != k.idle
    ensures Inv(Exit(k)) && Exit(k).procs[k.current.value].state == Dead
  {
    var cur := k.current.value;
    RunningFacts(k);
    var d := k.procs[cur].(state := Dead);
    SetProcKeeps(k, {cur}, cur, d);
    Release(SetProc(k, cur, d), {cur}, cur);
    assert {cur} - {cur} == {};
    ChooseKeepsInv(SetProc(k, cur, d));
  }

  // ---------------------------------------------------------------------
  // tick

  /** The queue part of the invariant, which holds at every step of a scan while the timer table is being rebuilt. */
  predicate Linked(k: Kernel, off: set<Pid>)
  {
    Wf(k) && IdleOk(k) && Placed(k) && Queues(k, off)
  }

  /** The queue part of the invariant depends only on the descriptors, the ready queues and the idle process. */
  lemma LinkedSame(k: Kernel, k': Kernel, off: set<Pid>)
    requires Linked(k, off) && Wf(k') && k'.procs == k.procs && k'.readyq == k.readyq && k'.idle == k.idle
    ensures Linked(k', off)
  {
    forall x: Pid ensures PidOk(k', x, off) {
      assert PidOk(k, x, off);
    }
  }

  /**
   * One scan step for a timed process p other than the running c keeps
   * the queues consistent: a timer moved to the next scale changes
   * nothing else, and a fired one makes its RECEIVING owner ready.
   */
  lemma ExpireLinked(k: Kernel, p: Pid, ticks: int, ms: int, c: Pid)
    requires Linked(k, {c}) && k.procs[p].timeout.Some? && p != c
    ensures var r := Expire(k, p, ticks, ms);
      Linked(r, {c}) && r.procs[c] == k.procs[c] && r.idle == k.idle
  {
    if k.procs[p].timeout.value < ticks {
      FireLinked(k, p, c);
    } else {
      var r := Expire(k, p, ticks, ms);
      forall x: Pid ensures PidOk(r, x, {c}) {
        assert PidOk(k, x, {c});
      }
    }
  }

  /** A fired timer makes its RECEIVING owner ready, and the queues stay consistent. */
  lemma FireLinked(k: Kernel, p: Pid, c: Pid)
    requires Linked(k, {c}) && k.procs[p].timeout.Some? && p != c
    ensures var r := Fire(k, p);
      Linked(r, {c}) && r.procs[c] == k.procs[c] && r.idle == k.idle
  {
    var r := Fire(k, p);
    FireEffect(k, p);
    forall x: Pid ensures PidOk(r, x, {c}) {
      FirePidOk(k, p, c, x);
    }
    FirePlaced(k, p);
  }

  /** A fired process joins the queue of its own priority. */
  lemma FirePlaced(k: Kernel, p: Pid)
    requires Wf(k) && Placed(k)
    ensures Placed(Fire(k, p))
  {
    FireEffect(k, p);
  }
  /** What firing p's timer leaves for one process x. */
  lemma FirePidOk(k: Kernel, p: Pid, c: Pid, x: Pid)
    requires Linked(k, {c}) && k.procs[p].timeout.Some? && p != c
    ensures PidOk(Fire(k, p), x, {c})
  {
    FireEffect(k, p);
    ReadiedPidOk(k, Fire(k, p), p, c, x);
  }

  /**
   * A receiver p, off no queue, that becomes ready without a timer while
   * nothing else changes: each process x is as the invariant wants.
   */
  lemma ReadiedPidOk(k: Kernel, r: Kernel, p: Pid, c: Pid, x: Pid)
    requires Linked(k, {c}) && Wf(r) && k.procs[p].timeout.Some? && p != c
    requires r.procs[p].timeout.None? && r.procs[p].state == ReadiedState(k, p)
    requires forall y: Pid :: y != p ==> r.procs[y] == k.procs[y]
    requires Ready(r) == Ready(k) + Readied(k, p) && Waiting(r) == Waiting(k)
    ensures PidOk(r, x, {c})
  {
    assert PidOk(k, p, {c}) && p != k.idle;
    assert PidOk(k, x, {c});
    if x != p {
      assert Ready(r)[x] == Ready(k)[x];
    }
  }



  /** A scan over distinct timed processes, the running c not among them, keeps the queues consistent. */
  lemma {:induction false} ScanLinked(k: Kernel, ts: seq<Pid>, ticks: int, ms: int, next: Option<int>, c: Pid)
    requires Linked(k, {c}) && Timed(k, ts) && NoDup(ts) && c !in ts
    requires Scan(k, ts, ticks, ms, next).Ok?
    ensures var r := Scan(k, ts, ticks, ms, next).value.0;
      Linked(r, {c}) && r.procs[c] == k.procs[c] && r.idle == k.idle
    decreases |ts|
  {
    if ts != [] {
      var p := ts[0];
      assert p in ts;
      var k1 := Expire(k, p, ticks, ms);
      ExpireLinked(k, p, ticks, ms, c);
      TailFacts(k, k1, ts);
      var next1 := MinOpt(NewTimer(k, p, ticks, ms), next);
      ScanLinked(k1, ts[1..], ticks, ms, next1, c);
    }
  }

  /** tick keeps the invariant, and under it never fails. */
  lemma TickKeepsInv(k: Kernel, ms: int)
    requires Inv(k)
    ensures Tick(k, ms).Ok? && Inv(Tick(k, ms).value)
  {
    var cur := k.current.value;
    RunningFacts(k);
    var k0 := CountTick(k);
    SetProcKeeps(k, {cur}, cur, k0.procs[cur]);
    assert k0 == SetProc(k, cur, k0.procs[cur]);
    MiniTickKeepsTimers(k0, ms);
    MiniTickLinked(k0, ms, cur);
    var r := MiniTick(k0, ms).value;
    assert Linked(r, {cur}) && TimersOk(r);
    assert r.current == k.current && r.procs[cur].state == k.procs[cur].state;
  }

  /** mini_tick keeps the queues consistent, and changes neither the running process nor its descriptor. */
  lemma MiniTickLinked(k: Kernel, ms: int, c: Pid)
    requires Linked(k, {c}) && TimersOk(k) && k.procs[c].timeout.None? && MiniTick(k, ms).Ok?
    ensures var r := MiniTick(k, ms).value;
      Linked(r, {c}) && r.procs[c] == k.procs[c] && r.current == k.current
  {
    var r := MiniTick(k, ms).value;
    if k.nextTime.Some? && k.ticks > k.nextTime.value {
      MiniTickScans(k, ms);
      var sc := Scan(k, k.timeouts, k.ticks, ms, None).value.0;
      ScanLinked(k, k.timeouts, k.ticks, ms, None, c);
      assert r.procs == sc.procs && r.readyq == sc.readyq;
      LinkedSame(sc, r, {c});
    } else {
      LinkedSame(k, r, {c});
    }
  }

  // ---------------------------------------------------------------------
  // The dispatcher

  /**
   * Every system call keeps the invariant.  The idle process only ever
   * yields.
   */
  lemma SystemCallKeepsInv(k: Kernel, call: Call, base: int)
    requires Inv(k) && Callable(k) && (k.current.value == k.idle ==> call == SysYield)
    requires SystemCall(k, call, base).Ok?
    ensures Inv(SystemCall(k, call, base).value)
  {
    match call
    case SysYield => YieldKeepsInv(k);
    case SysSend(dest, msg) =>
      SendKeepsInv(k, dest, msg);
      ChooseKeepsInv(SendStep(k, dest, msg).value);
    case SysReceive(mtype, buf, timeout) =>
      ReceiveKeepsInv(k, mtype, buf, timeout);
    case SysSendRec(dest, msg) =>
      SendRecKeepsInv(k, dest, msg);
      ChooseKeepsInv(SendRecStep(k, dest, msg, true).value);
    case SysExit => ExitKeepsInv(k);
    case SysDump =>
    case SysTick(ms) => TickKeepsInv(k, ms);
    case SysUnknown(op) =>
  }

  /** A fault that the caller brings on itself: a bad stack, operation, destination or message type. */
  predicate CallerFault(f: Fault)
  {
    f == StackOverflow || f.UnknownSyscall? || f.NoSuchProcess? || f.DeadProcess? || f == SendrecReply
  }

  /**
   * Under the invariant the kernel never panics on its own account: a
   * system call fails only for a fault of the caller's.
   */
  lemma SystemCallFaults(k: Kernel, call: Call, base: int)
    requires Inv(k) && Callable(k) && SystemCall(k, call, base).Fatal?
    ensures CallerFault(SystemCall(k, call, base).fault)
  {
    var cur := k.current.value;
    RunningFacts(k);
    if base == BLANK {
      match call
      case SysSend(dest, msg) =>
        if Live(k, dest) {
          SendNeverFails(k, dest, msg);
        }
      case SysSendRec(dest, msg) =>
        if Live(k, dest) && msg.mtype != REPLY {
          SendRecNeverFails(k, dest, msg);
        }
      case SysReceive(mtype, buf, timeout) =>
        ReceiveNeverFails(k, mtype, buf, timeout);
      case SysTick(ms) =>
        TickKeepsInv(k, ms);
      case _ =>
    }
  }

  /** Under the timer invariant, cancelling a receiver's timer never panics. */
  lemma CancelNeverFails(k: Kernel, p: Pid)
    requires Wf(k) && TimersOk(k)
    ensures CancelIfSet(k, p).Ok?
  {
  }

  /** Under the invariant, mini_send to a live process never panics. */
  lemma SendNeverFails(k: Kernel, dest: int, msg: Message)
    requires Inv(k) && Live(k, dest)
    ensures SendStep(k, dest, msg).Ok?
  {
    var cur := k.current.value;
    SetBufKeeps(k, Some(msg));
    var k1 := SetBuf(k, Some(msg));
    CancelNeverFails(k1, dest);
  }

  /** Under the invariant, the corrected mini_sendrec to a live process, with a type other than REPLY, never panics. */
  lemma SendRecNeverFails(k: Kernel, dest: int, msg: Message)
    requires Inv(k) && Callable(k) && Live(k, dest) && msg.mtype != REPLY
    ensures SendRecStep(k, dest, msg, true).Ok?
  {
    var cur := k.current.value;
    SetBufKeeps(k, Some(msg));
    var k1 := SetBuf(k, Some(msg));
    CancelNeverFails(k1, dest);
  }

  /**
   * Under the invariant mini_receive never panics: a waiting sender is
   * always SENDING or SENDREC, the caller has no timer yet, and the
   * timeout table, which holds no entry for the caller, has room.
   */
  lemma ReceiveNeverFails(k: Kernel, mtype: int, buf: Option<Message>, timeout: int)
    requires Inv(k) && Callable(k)
    ensures Receive(k, mtype, buf, timeout).Ok?
  {
    var cur := k.current.value;
    RunningFacts(k);
    var k1 := SetBuf(k, buf);
    SetBufKeeps(k, buf);
    if !TakesPending(k1, mtype) {
      ReceiveReady(k, buf, mtype);
      var (k2, s) := Sender(k1, mtype);
      if s.Some? {
        FindSenderKeeps(k1, {cur}, cur, mtype);
      } else if timeout > 0 {
        assert cur !in k.timeouts;
        TableHasRoom(k.timeouts, cur);
      }
    }
  }

  /** A duplicate-free table of pids that leaves out one pid has room for another. */
  lemma TableHasRoom(s: seq<Pid>, c: Pid)
    requires NoDup(s) && c !in s
    ensures |s| < NPROCS
  {
    var t := seq(|s|, i requires 0 <= i < |s| => if s[i] == NPROCS - 1 then c else s[i]);
    assert forall i :: 0 <= i < |t| ==> t[i] < NPROCS - 1;
    assert NoDup(t);
    DistinctBound(t, NPROCS - 1);
  }

  /** A duplicate-free sequence of naturals below n has at most n elements. */
  lemma {:induction false} DistinctBound(s: seq<Pid>, n: nat)
    requires NoDup(s) && forall i :: 0 <= i < |s| ==> s[i] < n
    ensures |s| <= n
    decreases n
  {
    if |s| > 0 {
      assert s[0] < n;
      var t := Without(s, n - 1);
      assert forall j :: 0 <= j < |t| ==> t[j] in s;
      DistinctBound(t, n - 1);
    }
  }

  /** s with v left out; a duplicate-free s loses at most one element. */
  function Without(s: seq<Pid>, v: int): (t: seq<Pid>)
    ensures v !in t && (forall x :: x in t ==> x in s)
    ensures v !in s ==> |t| == |s|
    ensures NoDup(s) ==> NoDup(t) && |s| <= |t| + 1
    decreases |s|
  {
    if s == [] then []
    else
      var rest := Without(s[1..], v);
      assert NoDup(s) ==> NoDup(s[1..]) && s[0] !in s[1..];
      if s[0] == v then rest
      else
        var t := [s[0]] + rest;
        assert forall j :: 1 <= j < |t| ==> t[j] == rest[j - 1];
        t
  }

  /**
   * After exit, the process is refused as a destination: find_dest
   * reports it dead, so a send to it from the process that runs next is
   * fatal.
   */
  lemma ExitThenRefused(k: Kernel, msg: Message)
    requires Inv(k) && k.current.value != k.idle
    ensures var cur := k.current.value; var k' := Exit(k);
      && FindDest(k', cur).Fatal? && (cur < k.nprocs ==> FindDest(k', cur) == Fatal(DeadProcess(cur)))
      && (Callable(k') ==> SystemCall(k', SysSend(cur, msg), BLANK) == Fatal(FindDest(k', cur).fault))
  {
    ExitKeepsInv(k);
  }

  /**
   * A dead process stays dead: no system call, interrupt, tick or context
   * switch that does not panic touches its descriptor.  Since each of
   * these steps also gives back Inv (SystemCallKeepsInv and the others),
   * the same holds after any number of them.
   */
  lemma DeadStaysDead(k: Kernel, p: Pid, call: Call, base: int, irq: int, ms: int)
    requires Inv(k) && k.procs[p].state == Dead
    ensures Callable(k) && SystemCall(k, call, base).Ok? ==> SystemCall(k, call, base).value.procs[p] == k.procs[p]
    ensures irq < N_INTERRUPTS && DefaultHandler(k, irq).Ok? ==> DefaultHandler(k, irq).value.procs[p] == k.procs[p]
    ensures Tick(k, ms).Ok? ==> Tick(k, ms).value.procs[p] == k.procs[p]
    ensures CxtSwitch(k).procs[p] == k.procs[p]
  {
    var cur := k.current.value;
    assert PidOk(k, p, {cur}) && p != cur;
    assert p !in k.timeouts;
    if Callable(k) {
      DeadCallStaysDead(k, p, call, base);
    }
  }

  /** The system-call half of DeadStaysDead, call by call. */
  lemma DeadCallStaysDead(k: Kernel, p: Pid, call: Call, base: int)
    requires Inv(k) && k.procs[p].state == Dead && Callable(k)
    requires p != k.current.value && Waiting(k)[p] == 0 && p !in k.timeouts
    ensures SystemCall(k, call, base).Ok? ==> SystemCall(k, call, base).value.procs[p] == k.procs[p]
  {
    if base == BLANK {
      match call
      case SysSend(dest, msg) => assert dest != p || !Live(k, dest);
      case SysSendRec(dest, msg) => assert dest != p || !Live(k, dest);
      case _ =>
    }
  }

  /**
   * One step of the running system: a system call of the current
   * process, an interrupt, or the context switch a reschedule request
   * leads to.  base is the word at the bottom of the caller's stack.
   */
  datatype Step =
    | Call(call: Call, base: int)
    | Attach(line: int)
    | Prioritise(prio: int)
    | Irq(irq: int)
    | Switch

  /** Interrupt numbers come from the hardware and fit the handler table. */
  predicate StepOk(s: Step)
  {
    && (s.Irq? ==> s.irq < N_INTERRUPTS)
    && (s.Attach? ==> s.line < N_INTERRUPTS)
  }

  /**
   * A step from a state satisfying the invariant: a system call, connect
   * or priority by the running process, an interrupt, or a context
   * switch.  The idle process makes no call but its first yield, so a
   * call of any kind while it runs is that yield.
   */
  function StepOnce(k: Kernel, s: Step): (r: Outcome<Kernel>)
    requires Inv(k) && StepOk(s)
    ensures r.Ok? ==> Inv(r.value)
  {
    InvCallable(k);
    match s
    case Call(call, base) =>
      var c := if k.current.value == k.idle then SysYield else call;
      var r := SystemCall(k, c, base);
      if r.Ok? then SystemCallKeepsInv(k, c, base); r else r
    case Attach(irq) =>
      if k.current.value == k.idle then
        SystemCallKeepsInv(k, SysYield, BLANK); Ok(Yield(k))
      else
        var r := Connect(k, irq);
        if r.Ok? then ConnectKeepsInv(k, irq); r else r
    case Prioritise(p) =>
      if k.current.value == k.idle then
        SystemCallKeepsInv(k, SysYield, BLANK); Ok(Yield(k))
      else
        var r := SetPriority(k, p);
        if r.Ok? then SetPriorityKeepsInv(k, p); r else r
    case Irq(irq) =>
      var r := DefaultHandler(k, irq);
      if r.Ok? then DefaultHandlerKeepsInv(k, irq); r else r
    case Switch =>
      CxtSwitchKeepsInv(k);
      Ok(CxtSwitch(k))
  }

  /** The steps one after another, until one is fatal. */
  function Run(k: Kernel, steps: seq<Step>): (r: Outcome<Kernel>)
    requires Inv(k) && forall i :: 0 <= i < |steps| ==> StepOk(steps[i])
    ensures r.Ok? ==> Inv(r.value)
    decreases |steps|
  {
    if steps == [] then Ok(k)
    else
      match StepOnce(k, steps[0])
      case Fatal(f) => Fatal(f)
      case Ok(k1) => Run(k1, steps[1..])
  }

  /** A dead process is left as it is by every step that does not panic. */
  lemma DeadStepStaysDead(k: Kernel, p: Pid, s: Step)
    requires Inv(k) && StepOk(s) && k.procs[p].state == Dead
    ensures StepOnce(k, s).Ok? ==> StepOnce(k, s).value.procs[p] == k.procs[p]
  {
    InvCallable(k);
    match s
    case Call(call, base) =>
      DeadStaysDead(k, p, if k.current.value == k.idle then SysYield else call, base, 0, 0);
    case Attach(_) => DeadSetupStaysDead(k, p, s);
    case Prioritise(_) => DeadSetupStaysDead(k, p, s);
    case Irq(irq) => DeadStaysDead(k, p, SysYield, 0, irq, 0);
    case Switch => DeadStaysDead(k, p, SysYield, 0, 0, 0);
  }

  /** connect and priority change only the caller, which is not dead. */
  lemma DeadSetupStaysDead(k: Kernel, p: Pid, s: Step)
    requires Inv(k) && StepOk(s) && (s.Attach? || s.Prioritise?) && k.procs[p].state == Dead
    ensures StepOnce(k, s).Ok? ==> StepOnce(k, s).value.procs[p] == k.procs[p]
  {
    InvCallable(k);
    if k.current.value == k.idle {
      DeadStaysDead(k, p, SysYield, BLANK, 0, 0);
      assert SystemCall(k, SysYield, BLANK) == Ok(Yield(k));
    } else {
      assert PidOk(k, p, {k.current.value});
    }
  }

  /** A dead process is left as it is by any run of steps that does not panic. */
  lemma {:induction false} DeadStaysDeadRun(k: Kernel, p: Pid, steps: seq<Step>)
    requires Inv(k) && (forall i :: 0 <= i < |steps| ==> StepOk(steps[i])) && k.procs[p].state == Dead
    ensures Run(k, steps).Ok? ==> Run(k, steps).value.procs[p] == k.procs[p]
    decreases |steps|
  {
    if steps != [] && StepOnce(k, steps[0]).Ok? {
      var k1 := StepOnce(k, steps[0]).value;
      DeadStepStaysDead(k, p, steps[0]);
      assert forall i :: 0 <= i < |steps[1..]| ==> StepOk(steps[1..][i]) by {
        forall i | 0 <= i < |steps[1..]| ensures StepOk(steps[1..][i]) {
          assert steps[1..][i] == steps[i + 1];
        }
      }
      DeadStaysDeadRun(k1, p, steps[1..]);
    }
  }

  /**
   * After exit, the process is refused as a destination for good: after
   * any run of further steps find_dest still reports it dead.
   */
  lemma ExitThenAlwaysRefused(k: Kernel, steps: seq<Step>)
    requires Inv(k) && k.current.value != k.idle && forall i :: 0 <= i < |steps| ==> StepOk(steps[i])
    ensures Inv(Exit(k))
    ensures var cur := k.current.value; var r := Run(Exit(k), steps);
      r.Ok? ==> FindDest(r.value, cur).Fatal? && (cur < r.value.nprocs ==> FindDest(r.value, cur) == Fatal(DeadProcess(cur)))
  {
    ExitKeepsInv(k);
    DeadStaysDeadRun(Exit(k), k.current.value, steps);
  }

  // ---------------------------------------------------------------------
  // The timer left running (see README, Findings)

  /**
   * As written, mini_sendrec hands its request to a receiver that has a
   * timer without cancelling it: the receiver is made ready with the
   * timer still set, so the invariant no longer holds.
   */
  lemma SendRecAsWrittenKeepsTimer(k: Kernel, dest: Pid, msg: Message)
    requires Inv(k) && k.current.value != k.idle && Callable(k)
    requires Live(k, dest) && msg.mtype != REPLY
    requires Accept(k.procs[dest], msg.mtype) && k.procs[dest].timeout.Some?
    ensures SendRecStep(k, dest, msg, false).Ok?
    ensures var r := SendRecStep(k, dest, msg, false).value;
      && r.procs[dest].state == Active && r.procs[dest].timeout.Some?
      && Ready(r)[dest] == 1 && !PreChoose(r)
  {
    var cur := k.current.value;
    assert PidOk(k, dest, {cur}) && dest != cur;
    SendRecAccepted(k, dest, msg, false);
    StaleAfterHandoff(k, dest, msg);
  }

  /** sendrec to a process that accepts the request: the handoff, then await_reply. */
  lemma SendRecAccepted(k: Kernel, dest: Pid, msg: Message, cancel: bool)
    requires Wf(k) && Callable(k) && Live(k, dest) && msg.mtype != REPLY && dest != k.current.value
    requires Accept(k.procs[dest], msg.mtype)
    requires Handoff(SetBuf(k, Some(msg)), dest, k.current.value, cancel).Ok?
    ensures SendRecStep(k, dest, msg, cancel).Ok?
    ensures SendRecReadyHolds(k, dest, msg, cancel)
    ensures SendRecStep(k, dest, msg, cancel).value
      == AwaitReply(Handoff(SetBuf(k, Some(msg)), dest, k.current.value, cancel).value, k.current.value)
  {
    var k1 := SetBuf(k, Some(msg));
    assert k1.procs[dest] == k.procs[dest];
    SendRecReady(k, dest, msg, cancel);
  }

  /** The caller's waiters still have buffers after the handoff of its sendrec. */
  predicate SendRecReadyHolds(k: Kernel, dest: Pid, msg: Message, cancel: bool)
    requires Wf(k) && k.current.Some?
  {
    Handoff(SetBuf(k, Some(msg)), dest, k.current.value, cancel).Ok? &&
    WaitersHaveBuf(Handoff(SetBuf(k, Some(msg)), dest, k.current.value, cancel).value, k.current.value)
  }

  /** The handoff without cancellation, followed by await_reply, leaves the receiver queued once with its timer. */
  lemma StaleAfterHandoff(k: Kernel, dest: Pid, msg: Message)
    requires Inv(k) && k.current.value != k.idle && Callable(k)
    requires Accept(k.procs[dest], msg.mtype) && k.procs[dest].timeout.Some?
    requires SendRecReadyHolds(k, dest, msg, false)
    ensures var cur := k.current.value;
      var r := AwaitReply(Handoff(SetBuf(k, Some(msg)), dest, cur, false).value, cur);
      && r.procs[dest].state == Active && r.procs[dest].timeout.Some?
      && Ready(r)[dest] == 1 && !PreChoose(r)
  {
    var cur := k.current.value;
    RunningFacts(k);
    assert PidOk(k, dest, {cur}) && dest != cur && dest != k.idle;
    var k1 := SetBuf(k, Some(msg));
    assert k1.readyq == k.readyq && k1.procs[dest] == k.procs[dest];
    HandoffEffect(k1, dest, cur, false);
    var k2 := Handoff(k1, dest, cur, false).value;
    StaleHanded(k1, k2, dest, cur, Copied(k1, dest, cur));
  }


  /** The handoff without cancellation leaves the receiver ACTIVE, queued once, and still timed. */
  lemma StaleHanded(k: Kernel, k2: Kernel, dest: Pid, cur: Pid, buf: Option<Message>)
    requires Wf(k) && Handed(k, k2, dest, buf, false) && dest != cur && WaitersHaveBuf(k2, cur)
    requires k.procs[dest].priority != P_IDLE && k.procs[dest].timeout.Some?
    requires Waiting(k)[dest] == 0 && Ready(k)[dest] == 0
    ensures var r := AwaitReply(k2, cur);
      && r.procs[dest].state == Active && r.procs[dest].timeout.Some?
      && Ready(r)[dest] == 1 && !PreChoose(r)
  {
    StaleWakeAwaits(k2, dest, cur);
  }

  /** The caller then waits for its reply, and the woken process keeps both its place on the ready queue and its timer. */
  lemma StaleWakeAwaits(k: Kernel, dest: Pid, cur: Pid)
    requires Wf(k) && dest != cur && WaitersHaveBuf(k, cur) && Waiting(k)[dest] == 0
    requires k.procs[dest].state == Active && k.procs[dest].timeout.Some? && Ready(k)[dest] == 1
    ensures var r := AwaitReply(k, cur);
      && r.procs[dest].state == Active && r.procs[dest].timeout.Some?
      && Ready(r)[dest] == 1 && !PreChoose(r)
  {
    AwaitReplyFrame(k, cur, dest);
    assert !PidOk(AwaitReply(k, cur), dest, {});
  }

  /**
   * As written, interrupt wakes a handler that has a timer without
   * cancelling it, so the invariant no longer holds.
   */
  lemma InterruptAsWrittenKeepsTimer(k: Kernel, dest: Pid)
    requires Inv(k) && Live(k, dest) && Accept(k.procs[dest], INTERRUPT) && k.procs[dest].timeout.Some?
    ensures InterruptWith(k, dest, false).Ok?
    ensures var r := InterruptWith(k, dest, false).value;
      && r.procs[dest].state == Active && r.procs[dest].timeout.Some?
      && Ready(r)[dest] == 1 && !Inv(r)
  {
    var cur := k.current.value;
    RunningFacts(k);
    assert PidOk(k, dest, {cur}) && dest != cur && dest != k.idle;
    var r := InterruptWith(k, dest, false).value;
    assert !PidOk(r, dest, {cur});
  }

  /**
   * The consequence: when the stale timer of a process that is already
   * ACTIVE on its ready queue fires, make_ready is applied to a queued
   * process, and the sequence view counts it twice.  In the C code's
   * linked queue the damage is worse than a duplicate: make_ready clears
   * p->next, which cuts off every process queued behind p, and then
   * links p after the tail, so that when p is itself the tail its next
   * pointer points to itself.
   */
  lemma StaleTimerQueuesTwice(k: Kernel, p: Pid)
    requires Wf(k) && k.procs[p].state == Active && k.procs[p].priority != P_IDLE && Ready(k)[p] == 1
    ensures Ready(Fire(k, p))[p] == 2
  {
    FireEffect(k, p);
  }

  /** await_reply of p leaves every process other than p and the sender it may release as it was. */
  lemma AwaitReplyFrame(k: Kernel, p: Pid, x: Pid)
    requires Wf(k) && WaitersHaveBuf(k, p) && x != p && Waiting(k)[x] == 0
    ensures AwaitReply(k, p).procs[x] == k.procs[x] && Ready(AwaitReply(k, p))[x] == Ready(k)[x]
  {
    var (k1, s) := FindSender(k, p, REPLY);
    if s.Some? {
      FoundNotX(k, p, x);
      assert k1.procs[x] == k.procs[x] && k1.readyq == k.readyq;
      ReleaseFrame(k1, p, s.value, x);
    }
  }

  /** Delivering from s to p and readying s leaves every third process x as it was. */
  lemma ReleaseFrame(k: Kernel, p: Pid, s: Pid, x: Pid)
    requires Wf(k) && k.procs[s].buf.Some? && x != p && x != s
    ensures var r := MakeReady(Deliver(k, p, s), s);
      r.procs[x] == k.procs[x] && Ready(r)[x] == Ready(k)[x]
  {
  }

  /** The sender find_sender takes off p's list was waiting, so it is not x. */
  lemma FoundNotX(k: Kernel, p: Pid, x: Pid)
    requires Wf(k) && WaitersHaveBuf(k, p) && Waiting(k)[x] == 0 && FindSender(k, p, REPLY).1.Some?
    ensures FindSender(k, p, REPLY).1.value != x
  {
    var w := k.procs[p].waiting;
    var i := FirstMatch(k, w, REPLY, 0).value;
    assert FindSender(k, p, REPLY).1.value in w;
    NotWaiting(k, x);
  }
}
