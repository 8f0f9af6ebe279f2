/**
 * The kernel state and the primitives the system calls are built from:
 * the ready queues (make_ready, choose_proc), message delivery (accept,
 * deliver, deliver_special), the waiting lists of receivers (queue_sender,
 * find_sender), await_reply and find_dest.
 *
 * Every queue of the C code is an intrusive list through the next field of
 * the descriptors; here each is a sequence of pids, oldest first.  Queued
 * is the bag of all pids on all queues, so that "each process is on at
 * most one queue" reads: no pid occurs twice in Queued.
 */
module Kernel {
  import opened Messages
  import opened Options
  import opened Proc

  /** The size of the handler table (the interrupts of the nRF52833). */
  const N_INTERRUPTS: int := 64

  /**
   * The kernel's variables: the process table (NPROCS slots, of which the
   * first nprocs are in use), one ready queue per priority, the current
   * and idle processes, the timeout table, the handler table, the heap,
   * and whether a reschedule has been requested.
   */
  datatype Kernel = Kernel(
    procs: seq<Desc>, nprocs: nat, readyq: seq<seq<Pid>>, current: Option<Pid>, idle: Pid,
    timeouts: seq<Pid>, ticks: int, nextTime: Option<int>,
    handler: seq<int>, resched: bool, heap: Heap)

  /** The shape of every state: the sizes of the tables. */
  predicate Wf(k: Kernel)
  {
    |k.procs| == NPROCS && k.nprocs <= NPROCS && |k.readyq| == NPRIO && |k.handler| == N_INTERRUPTS
  }

  // ---------------------------------------------------------------------
  // The bag of queued pids

  function ReadyBag(qs: seq<seq<Pid>>): multiset<Pid>
    decreases |qs|
  {
    if |qs| == 0 then multiset{} else ReadyBag(qs[..|qs| - 1]) + multiset(qs[|qs| - 1])
  }

  /** The waiting list of every descriptor, in table order. */
  function WaitLists(ps: seq<Desc>): (w: seq<seq<Pid>>)
    ensures |w| == |ps| && forall i :: 0 <= i < |ps| ==> w[i] == ps[i].waiting
  {
    seq(|ps|, i requires 0 <= i < |ps| => ps[i].waiting)
  }

  function WaitBag(ps: seq<Desc>): multiset<Pid>
    decreases |ps|
  {
    if |ps| == 0 then multiset{} else WaitBag(ps[..|ps| - 1]) + multiset(ps[|ps| - 1].waiting)
  }

  /** The waiting bag is the bag of the waiting lists. */
  lemma {:induction false} WaitBagIsBag(ps: seq<Desc>)
    ensures WaitBag(ps) == ReadyBag(WaitLists(ps))
    decreases |ps|
  {
    if |ps| > 0 {
      var n := |ps| - 1;
      WaitBagIsBag(ps[..n]);
      assert WaitLists(ps)[..n] == WaitLists(ps[..n]);
    }
  }

  /** Every pid on a ready queue, as often as it occurs there. */
  function Ready(k: Kernel): multiset<Pid>
  {
    ReadyBag(k.readyq)
  }

  /** Every pid on a waiting list, as often as it occurs there. */
  function Waiting(k: Kernel): multiset<Pid>
  {
    WaitBag(k.procs)
  }

  /** Every pid on any queue, as often as it occurs there. */
  function Queued(k: Kernel): multiset<Pid>
  {
    Ready(k) + Waiting(k)
  }

  /** Adding the same bag to both sides of an equation of bags. */
  lemma AddBoth(x: multiset<Pid>, y: multiset<Pid>, a: multiset<Pid>, b: multiset<Pid>, c: multiset<Pid>)
    requires x + a == y + b
    ensures (x + c) + a == (y + c) + b && (c + x) + a == (c + y) + b
  {
    forall e ensures ((x + c) + a)[e] == ((y + c) + b)[e] && ((c + x) + a)[e] == ((c + y) + b)[e] {
      assert (x + a)[e] == (y + b)[e];
    }
  }

  /** Cancelling the same list from both sides. */
  lemma BagCancel(x: multiset<Pid>, y: multiset<Pid>, a: seq<Pid>)
    ensures x + multiset(a) == y + multiset(a) ==> x == y
  {
    if x + multiset(a) == y + multiset(a) {
      forall e ensures x[e] == y[e] {
        assert (x + multiset(a))[e] == (y + multiset(a))[e];
      }
    }
  }

  /** Trading a list for the list with p appended adds p. */
  lemma BagAppend(x: multiset<Pid>, y: multiset<Pid>, a: seq<Pid>, p: Pid)
    ensures x + multiset(a) == y + multiset(a + [p]) ==> x == y + multiset{p}
  {
    assert multiset(a + [p]) == multiset(a) + multiset{p};
    if x + multiset(a) == y + multiset(a + [p]) {
      forall e ensures x[e] == (y + multiset{p})[e] {
        assert (x + multiset(a))[e] == (y + multiset(a + [p]))[e];
      }
    }
  }

  /** Trading a list for the list without its element i removes that element. */
  lemma BagRemove(x: multiset<Pid>, y: multiset<Pid>, a: seq<Pid>, i: int)
    requires 0 <= i < |a|
    ensures x + multiset(a) == y + multiset(a[..i] + a[i + 1..]) ==> x + multiset{a[i]} == y
  {
    assert a == a[..i] + [a[i]] + a[i + 1..];
    assert multiset(a) == multiset(a[..i] + a[i + 1..]) + multiset{a[i]};
    if x + multiset(a) == y + multiset(a[..i] + a[i + 1..]) {
      forall e ensures (x + multiset{a[i]})[e] == y[e] {
        assert (x + multiset(a))[e] == (y + multiset(a[..i] + a[i + 1..]))[e];
      }
    }
  }

  /** Replacing one queue replaces its contribution to the bag. */
  lemma {:induction false} ReadyBagUpdate(qs: seq<seq<Pid>>, i: int, q: seq<Pid>)
    requires 0 <= i < |qs|
    ensures ReadyBag(qs[i := q]) + multiset(qs[i]) == ReadyBag(qs) + multiset(q)
    decreases |qs|
  {
    var n := |qs| - 1;
    var qs' := qs[i := q];
    if i < n {
      assert qs'[..n] == qs[..n][i := q];
      ReadyBagUpdate(qs[..n], i, q);
      assert ReadyBag(qs') == ReadyBag(qs'[..n]) + multiset(qs[n]);
      assert ReadyBag(qs) == ReadyBag(qs[..n]) + multiset(qs[n]);
      assert qs[..n][i] == qs[i];
      AddBoth(ReadyBag(qs'[..n]), ReadyBag(qs[..n]), multiset(qs[i]), multiset(q), multiset(qs[n]));
    } else {
      assert qs'[..n] == qs[..n];
      assert ReadyBag(qs') == ReadyBag(qs[..n]) + multiset(q);
      assert ReadyBag(qs) == ReadyBag(qs[..n]) + multiset(qs[n]);
    }
  }

  /** Each queue is part of the bag. */
  lemma {:induction false} ReadyBagHas(qs: seq<seq<Pid>>, i: int)
    requires 0 <= i < |qs|
    ensures multiset(qs[i]) <= ReadyBag(qs)
    decreases |qs|
  {
    if i < |qs| - 1 {
      ReadyBagHas(qs[..|qs| - 1], i);
    }
  }

  /** Whatever is in the bag is on one of the queues. */
  lemma {:induction false} ReadyBagIn(qs: seq<seq<Pid>>, x: Pid)
    requires ReadyBag(qs)[x] > 0
    ensures exists i :: 0 <= i < |qs| && x in qs[i]
    decreases |qs|
  {
    var n := |qs| - 1;
    if x in qs[n] {
    } else {
      ReadyBagIn(qs[..n], x);
      var i :| 0 <= i < n && x in qs[..n][i];
      assert qs[..n][i] == qs[i];
    }
  }

  /** Replacing one descriptor replaces its waiting list's contribution to the bag. */
  lemma WaitBagUpdate(ps: seq<Desc>, i: int, d: Desc)
    requires 0 <= i < |ps|
    ensures WaitBag(ps[i := d]) + multiset(ps[i].waiting) == WaitBag(ps) + multiset(d.waiting)
  {
    assert WaitLists(ps[i := d]) == WaitLists(ps)[i := d.waiting];
    WaitBagIsBag(ps);
    WaitBagIsBag(ps[i := d]);
    ReadyBagUpdate(WaitLists(ps), i, d.waiting);
  }


  /** Queues that are all empty make an empty bag. */
  lemma {:induction false} BagEmpty(qs: seq<seq<Pid>>)
    requires forall i :: 0 <= i < |qs| ==> qs[i] == []
    ensures ReadyBag(qs) == multiset{}
    decreases |qs|
  {
    if |qs| > 0 {
      BagEmpty(qs[..|qs| - 1]);
    }
  }

  /** Each waiting list is part of the bag. */
  lemma WaitBagHas(ps: seq<Desc>, i: int)
    requires 0 <= i < |ps|
    ensures multiset(ps[i].waiting) <= WaitBag(ps)
  {
    WaitBagIsBag(ps);
    ReadyBagHas(WaitLists(ps), i);
  }


  /** A pid missing from Ready is on none of the ready queues. */
  lemma NotReady(k: Kernel, p: Pid)
    requires Wf(k) && Ready(k)[p] == 0
    ensures forall q :: 0 <= q < NPRIO ==> p !in k.readyq[q]
  {
    forall q | 0 <= q < NPRIO ensures p !in k.readyq[q] {
      ReadyBagHas(k.readyq, q);
    }
  }

  /** A pid missing from Waiting is on none of the waiting lists. */
  lemma NotWaiting(k: Kernel, p: Pid)
    requires Wf(k) && Waiting(k)[p] == 0
    ensures forall i :: 0 <= i < NPROCS ==> p !in k.procs[i].waiting
  {
    forall i | 0 <= i < NPROCS ensures p !in k.procs[i].waiting {
      WaitBagHas(k.procs, i);
    }
  }

  // ---------------------------------------------------------------------
  // Table updates

  /** The kernel with descriptor p replaced; the new waiting list replaces the old one in Waiting. */
  function SetProc(k: Kernel, p: Pid, d: Desc): (r: Kernel)
    requires Wf(k)
    ensures Wf(r) && r == k.(procs := k.procs[p := d])
    ensures Waiting(r) + multiset(k.procs[p].waiting) == Waiting(k) + multiset(d.waiting)
    ensures d.waiting == k.procs[p].waiting ==> Waiting(r) == Waiting(k)
  {
    var r := k.(procs := k.procs[p := d]);
    WaitBagUpdate(k.procs, p, d);
    BagCancel(Waiting(r), Waiting(k), d.waiting);
    r
  }

  /** The kernel with ready queue q replaced; the new queue replaces the old one in Ready. */
  function SetQueue(k: Kernel, q: int, s: seq<Pid>): (r: Kernel)
    requires Wf(k) && 0 <= q < NPRIO
    ensures Wf(r) && r == k.(readyq := k.readyq[q := s])
    ensures Ready(r) + multiset(k.readyq[q]) == Ready(k) + multiset(s)
  {
    var r := k.(readyq := k.readyq[q := s]);
    ReadyBagUpdate(k.readyq, q, s);
    r
  }

  // ---------------------------------------------------------------------
  // Ready queues

  /** What make_ready(p) adds to the ready queues: p, unless it has the idle priority. */
  function Readied(k: Kernel, p: Pid): multiset<Pid>
    requires Wf(k)
  {
    if k.procs[p].priority == P_IDLE then multiset{} else multiset{p}
  }

  /** The state make_ready(p) leaves p in: ACTIVE, unless it has the idle priority. */
  function ReadiedState(k: Kernel, p: Pid): State
    requires Wf(k)
  {
    if k.procs[p].priority == P_IDLE then k.procs[p].state else Active
  }

  /**
   * make_ready(p), FIFO build: the idle process is never queued; any
   * other process becomes ACTIVE and joins the tail of the queue for its
   * priority, so Ready gains exactly p.
   */
  function MakeReady(k: Kernel, p: Pid): (r: Kernel)
    requires Wf(k)
    ensures Wf(r) && r == k.(procs := r.procs, readyq := r.readyq)
    ensures r.procs == k.procs[p := k.procs[p].(state := ReadiedState(k, p))]
    ensures Ready(r) == Ready(k) + Readied(k, p) && Waiting(r) == Waiting(k)
    ensures k.procs[p].priority == P_IDLE ==> r == k
    ensures k.procs[p].priority != P_IDLE ==>
      r.readyq == k.readyq[k.procs[p].priority := k.readyq[k.procs[p].priority] + [p]]
  {
    var d := k.procs[p];
    if d.priority == P_IDLE then
      assert k.procs[p := d] == k.procs;
      k
    else
      var k1 := SetProc(k, p, d.(state := Active));
      var r := SetQueue(k1, d.priority, k1.readyq[d.priority] + [p]);
      BagAppend(Ready(r), Ready(k1), k1.readyq[d.priority], p);
      r
  }

  /** The first non-empty queue at index from or above, if any. */
  function FirstNonEmpty(qs: seq<seq<Pid>>, from: nat): (r: Option<nat>)
    ensures r.Some? ==> from <= r.value < |qs| && qs[r.value] != []
    ensures r.Some? ==> forall j :: from <= j < r.value ==> qs[j] == []
    ensures r.None? ==> forall j :: from <= j < |qs| ==> qs[j] == []
    decreases |qs| - from
  {
    if from >= |qs| then None
    else if qs[from] != [] then Some(from)
    else FirstNonEmpty(qs, from + 1)
  }

  /**
   * choose_proc(): the head of the most urgent non-empty ready queue
   * becomes the current process and leaves its queue; with every queue
   * empty, the idle process runs.
   */
  function ChooseProc(k: Kernel): (r: Kernel)
    requires Wf(k)
    ensures Wf(r) && r.current.Some? && r == k.(current := r.current, readyq := r.readyq)
    ensures var f := FirstNonEmpty(k.readyq, 0);
      && (f.None? ==> r.current == Some(k.idle) && r.readyq == k.readyq)
      && (f.Some? ==>
        && r.current == Some(k.readyq[f.value][0])
        && r.readyq == k.readyq[f.value := k.readyq[f.value][1..]]
        && Ready(r) + multiset{r.current.value} == Ready(k))
  {
    var f := FirstNonEmpty(k.readyq, 0);
    if f.None? then k.(current := Some(k.idle))
    else
      var q := k.readyq[f.value];
      var k1 := SetQueue(k, f.value, q[1..]);
      assert q[1..] == q[..0] + q[0 + 1..];
      BagRemove(Ready(k1), Ready(k), q, 0);
      k1.(current := Some(q[0]))
  }

  // ---------------------------------------------------------------------
  // Delivery

  /** accept(p, type): p is blocked in receive with a filter that lets the type through. */
  predicate Accept(d: Desc, mtype: int)
  {
    d.state == Receiving && (d.filter == ANY || d.filter == mtype)
  }

  /** The buffer of dst after deliver(dst, src): the message of src stamped with its pid, if dst passed a buffer. */
  function Copied(k: Kernel, dst: Pid, src: Pid): Option<Message>
    requires Wf(k) && k.procs[src].buf.Some?
  {
    if k.procs[dst].buf.None? then None else Some(k.procs[src].buf.value.(sender := ToU16(src)))
  }

  /**
   * The copying half of deliver: when the receiver passed a buffer, it
   * now holds the sender's message stamped with the sender's pid.
   */
  function CopyMessage(k: Kernel, dst: Pid, src: Pid): (r: Kernel)
    requires Wf(k) && k.procs[src].buf.Some?
    ensures Wf(r) && Waiting(r) == Waiting(k)
    ensures r == k.(procs := k.procs[dst := k.procs[dst].(buf := Copied(k, dst, src))])
  {
    var d := k.procs[dst];
    if d.buf.None? then
      assert k.procs[dst := d] == k.procs;
      k
    else SetProc(k, dst, d.(buf := Some(k.procs[src].buf.value.(sender := ToU16(src)))))
  }

  /** deliver(dst, src): the message is copied and the receiver made ready. */
  function Deliver(k: Kernel, dst: Pid, src: Pid): (r: Kernel)
    requires Wf(k) && k.procs[src].buf.Some?
    ensures Wf(r)
    ensures r == MakeReady(CopyMessage(k, dst, src), dst)
  {
    MakeReady(CopyMessage(k, dst, src), dst)
  }

  /** The buffer after deliver_special(dst, src, type): type and sender overwritten, payload kept. */
  function Stamped(buf: Option<Message>, src: int, mtype: int): Option<Message>
  {
    if buf.None? then None else Some(buf.value.(sender := ToU16(src), mtype := ToU16(mtype)))
  }

  /**
   * deliver_special(dst, src, type): a message from the kernel itself;
   * when dst passed a buffer, its type and sender fields are overwritten
   * and the payload is left as it was.
   */
  function DeliverSpecial(k: Kernel, dst: Pid, src: int, mtype: int): (r: Kernel)
    requires Wf(k)
    ensures Wf(r) && Waiting(r) == Waiting(k)
    ensures r == k.(procs := k.procs[dst := k.procs[dst].(buf := Stamped(k.procs[dst].buf, src, mtype))])
  {
    var d := k.procs[dst];
    if d.buf.None? then
      assert k.procs[dst := d] == k.procs;
      k
    else SetProc(k, dst, d.(buf := Some(d.buf.value.(sender := ToU16(src), mtype := ToU16(mtype)))))
  }

  // ---------------------------------------------------------------------
  // Waiting lists

  /** queue_sender(dst): the current process joins the tail of dst's waiting list. */
  function QueueSender(k: Kernel, dst: Pid): (r: Kernel)
    requires Wf(k) && k.current.Some?
    ensures Wf(r)
    ensures r == k.(procs := k.procs[dst := k.procs[dst].(waiting := k.procs[dst].waiting + [k.current.value])])
    ensures Waiting(r) == Waiting(k) + multiset{k.current.value}
  {
    var d := k.procs[dst];
    var r := SetProc(k, dst, d.(waiting := d.waiting + [k.current.value]));
    BagAppend(Waiting(r), Waiting(k), d.waiting, k.current.value);
    r
  }

  /** Every process on the waiting list of dst has a message buffer. */
  predicate WaitersHaveBuf(k: Kernel, dst: Pid)
    requires Wf(k)
  {
    forall p :: p in k.procs[dst].waiting ==> k.procs[p].buf.Some?
  }

  /** The matching test of find_sender: any sender for ANY, else one whose message has the type. */
  predicate Matches(k: Kernel, p: Pid, mtype: int)
    requires Wf(k) && k.procs[p].buf.Some?
  {
    mtype == ANY || k.procs[p].buf.value.mtype == mtype
  }

  /** The index in w of the first matching sender at or after from, if any. */
  function FirstMatch(k: Kernel, w: seq<Pid>, mtype: int, from: nat): (r: Option<nat>)
    requires Wf(k) && forall j :: 0 <= j < |w| ==> k.procs[w[j]].buf.Some?
    ensures r.Some? ==> from <= r.value < |w| && Matches(k, w[r.value], mtype)
    ensures r.Some? ==> forall j :: from <= j < r.value ==> !Matches(k, w[j], mtype)
    ensures r.None? ==> forall j :: from <= j < |w| ==> !Matches(k, w[j], mtype)
    decreases |w| - from
  {
    if from >= |w| then None
    else if Matches(k, w[from], mtype) then Some(from)
    else FirstMatch(k, w, mtype, from + 1)
  }

  /**
   * find_sender(dst, type): the earliest waiter on dst whose message
   * matches leaves the list, which otherwise keeps its order; with no
   * match nothing changes.
   */
  function FindSender(k: Kernel, dst: Pid, mtype: int): (r: (Kernel, Option<Pid>))
    requires Wf(k) && WaitersHaveBuf(k, dst)
    ensures Wf(r.0)
    ensures var w := k.procs[dst].waiting;
      && (forall j :: 0 <= j < |w| ==> k.procs[w[j]].buf.Some?)
      && var i := FirstMatch(k, w, mtype, 0);
      && (i.None? ==> r == (k, None))
      && (i.Some? ==>
        && r.1 == Some(w[i.value])
        && r.0 == k.(procs := k.procs[dst := k.procs[dst].(waiting := w[..i.value] + w[i.value + 1..])])
        && Waiting(r.0) + multiset{w[i.value]} == Waiting(k))
  {
    var d := k.procs[dst];
    var w := d.waiting;
    assert forall j :: 0 <= j < |w| ==> w[j] in w;
    var i := FirstMatch(k, w, mtype, 0);
    if i.None? then (k, None)
    else
      var r := SetProc(k, dst, d.(waiting := w[..i.value] + w[i.value + 1..]));
      BagRemove(Waiting(r), Waiting(k), w, i.value);
      (r, Some(w[i.value]))
  }

  /**
   * await_reply(p), after p's request has been taken: a REPLY already
   * waiting on p is delivered at once and its sender released; otherwise
   * p blocks in receive for a REPLY.
   */
  function AwaitReply(k: Kernel, p: Pid): (r: Kernel)
    requires Wf(k) && WaitersHaveBuf(k, p)
    ensures Wf(r) && r.current == k.current
    ensures var (k1, s) := FindSender(k, p, REPLY);
      && (s.None? ==> r == k.(procs := k.procs[p := k.procs[p].(state := Receiving, filter := REPLY)]))
      && (s.Some? ==> k1.procs[s.value].buf.Some? && r == MakeReady(Deliver(k1, p, s.value), s.value))
    ensures k.procs[p].buf.Some? ==> AwaitingReply(r, p)
    ensures forall x: Pid :: x != p && x !in k.procs[p].waiting ==> r.procs[x] == k.procs[x]
  {
    var (k1, s) := FindSender(k, p, REPLY);
    if s.Some? then
      var w := k.procs[p].waiting;
      assert s.value == w[FirstMatch(k, w, REPLY, 0).value];
      ReplyReleased(k, k1, p, s.value);
      MakeReady(Deliver(k1, p, s.value), s.value)
    else
      var r := SetProc(k, p, k.procs[p].(state := Receiving, filter := REPLY));
      assert r.procs[p].state == Receiving && r.procs[p].filter == REPLY;
      r
  }

  /** A REPLY already waiting on p is delivered to p, and only p and its sender change. */
  lemma ReplyReleased(k: Kernel, k1: Kernel, p: Pid, s: Pid)
    requires Wf(k) && Wf(k1) && k1.current == k.current && k1.procs[s].buf.Some?
    requires k1.procs[s].buf.value.mtype == REPLY && k1.procs[p].buf == k.procs[p].buf
    requires k1.procs[p].priority == k.procs[p].priority
    requires forall x: Pid :: x != p ==> k1.procs[x] == k.procs[x]
    ensures var r := MakeReady(Deliver(k1, p, s), s);
      && r.current == k.current
      && (k.procs[p].buf.Some? ==> AwaitingReply(r, p))
      && forall x: Pid :: x != p && x != s ==> r.procs[x] == k.procs[x]
  {
    var k2 := CopyMessage(k1, p, s);
    var k3 := MakeReady(k2, p);
    var r := MakeReady(k3, s);
    ReplyHeld(k1, k2, k3, r, p, s);
  }

  /** The descriptor of p through the copy and the two make_ready calls. */
  lemma ReplyHeld(k1: Kernel, k2: Kernel, k3: Kernel, r: Kernel, p: Pid, s: Pid)
    requires Wf(k1) && k1.procs[s].buf.Some? && k1.procs[s].buf.value.mtype == REPLY
    requires k2 == CopyMessage(k1, p, s) && k3 == MakeReady(k2, p) && r == MakeReady(k3, s)
    ensures k1.procs[p].buf.Some? ==> AwaitingReply(r, p)
  {
    var d1 := k1.procs[p];
    var d2 := k2.procs[p];
    assert d2 == d1.(buf := Copied(k1, p, s));
    var d3 := k3.procs[p];
    assert d3 == d2.(state := ReadiedState(k2, p));
    var d := r.procs[p];
    assert d.buf == d3.buf && d.priority == d1.priority;
    assert d.priority != P_IDLE ==> d.state == Active;
  }

  /**
   * Where a sendrec leaves its caller p once the request is handed over:
   * blocked in receive for a REPLY, or already holding one and made ready
   * (ACTIVE, unless it has the idle priority, which is never queued).
   */
  predicate AwaitingReply(k: Kernel, p: Pid)
    requires Wf(k)
  {
    var d := k.procs[p];
    || (d.state == Receiving && d.filter == REPLY)
    || (d.buf.Some? && d.buf.value.mtype == REPLY && (d.priority != P_IDLE ==> d.state == Active))
  }

  /** find_dest(dest): a pid outside the table in use, or of a dead process, is fatal. */
  function FindDest(k: Kernel, dest: int): (r: Outcome<Pid>)
    requires Wf(k)
    ensures r.Ok? <==> 0 <= dest < k.nprocs && k.procs[dest].state != Dead
    ensures r.Ok? ==> r.value == dest
    ensures (dest < 0 || dest >= k.nprocs) ==> r == Fatal(NoSuchProcess(dest))
    ensures 0 <= dest < k.nprocs && k.procs[dest].state == Dead ==> r == Fatal(DeadProcess(dest))
  {
    if dest < 0 || dest >= k.nprocs then Fatal(NoSuchProcess(dest))
    else if k.procs[dest].state == Dead then Fatal(DeadProcess(dest))
    else Ok(dest)
  }
}
