/**
 * Creating processes and starting the system.  create_proc takes the
 * next slot of the process table, a descriptor from the top of the heap
 * and a stack from the bottom; start queues a new process before the
 * scheduler runs; __start creates the idle process, lets the
 * application start its processes, and makes the idle process current.
 */
module Boot {
  import opened Messages
  import opened Options
  import opened Proc
  import opened Kernel
  import opened Timers
  import opened Invariant

  /** The stack size of the idle process. */
  const IDLE_STACK: int := 128

  /** An unused slot of the process table: DEAD, on no queue, with nothing waiting and no timer. */
  function Blank(p: Pid): (d: Desc)
    ensures d.state == Dead && d.waiting == [] && d.timeout.None? && d.priority != P_IDLE
  {
    Desc(p, [], Dead, 0, 0, P_LOW, [], false, ANY, None, None, 0, 0)
  }

  /** The kernel before __start: no processes, empty queues and timer table, no handlers, nobody running. */
  function Initial(heap: Heap): (k: Kernel)
    ensures Wf(k) && k.nprocs == 0 && k.current.None?
  {
    Kernel(seq(NPROCS, (i: int) requires 0 <= i < NPROCS => Blank(i)), 0, seq(NPRIO, _ => []), None, 0,
      [], 0, None, seq(N_INTERRUPTS, _ => 0), false, heap)
  }

  /**
   * create_proc(name, stksize): fatal once the table is full, or when
   * the heap has no room for the descriptor or the stack.  Otherwise the
   * next pid gets a fresh descriptor whose stack lies below every
   * descriptor, and nothing else changes.  n_ticks and n_calls keep
   * whatever the heap held (ticks, calls).
   */
  function CreateProc(k: Kernel, name: seq<char>, stksize: int, ticks: nat, calls: nat): (r: Outcome<(Kernel, Pid)>)
    requires Wf(k)
    ensures r.Fatal? <==>
      k.nprocs >= NPROCS || NewProc(k.heap).Fatal? || Sbrk(NewProc(k.heap).value.0, stksize).Fatal?
    ensures k.nprocs >= NPROCS ==> r == Fatal(TooManyProcesses)
    ensures r.Fatal? ==> r.fault in {TooManyProcesses, NoSpaceForProcess, OutOfMemory}
    ensures r.Ok? ==>
      var (k', pid) := r.value;
      && Wf(k') && pid == k.nprocs && k'.nprocs == k.nprocs + 1
      && k' == k.(procs := k.procs[pid := k'.procs[pid]], nprocs := k'.nprocs, heap := k'.heap)
      && k'.procs[pid] == NewDesc(pid, name, k'.procs[pid].stack, stksize, ticks, calls)
      && k'.procs[pid].stack + RoundUp8(stksize) <= k'.heap.htop && k'.heap.hbot <= k'.heap.htop
  {
    if k.nprocs >= NPROCS then Fatal(TooManyProcesses)
    else
      match NewProc(k.heap)
      case Fatal(f) => Fatal(f)
      case Ok((h1, _)) =>
        match Sbrk(h1, stksize)
        case Fatal(f) => Fatal(f)
        case Ok((h2, stack)) =>
          StackBelowDescriptor(k.heap, stksize);
          var pid: Pid := k.nprocs;
          Ok((SetProc(k, pid, NewDesc(pid, name, stack, stksize, ticks, calls)).(nprocs := pid + 1, heap := h2), pid))
  }

  /**
   * start(name, body, arg, stksize): creates a process with the stack
   * size rounded up to a multiple of 8, is fatal once the scheduler is
   * running, and otherwise puts the new process on its ready queue.
   */
  function Start(k: Kernel, name: seq<char>, stksize: int, ticks: nat, calls: nat): (r: Outcome<(Kernel, Pid)>)
    requires Wf(k)
    ensures r.Fatal? <==> CreateProc(k, name, RoundUp8(stksize), ticks, calls).Fatal? || k.current.Some?
    ensures CreateProc(k, name, RoundUp8(stksize), ticks, calls).Ok? && k.current.Some? ==>
      r == Fatal(StartAfterStartup)
    ensures r.Ok? ==>
      var (k', pid) := r.value;
      && Wf(k') && pid == k.nprocs && k'.procs[pid].state == Active && k'.procs[pid].stksize % 8 == 0
      && k'.readyq == k.readyq[P_LOW := k.readyq[P_LOW] + [pid]] && Ready(k') == Ready(k) + multiset{pid}
  {
    match CreateProc(k, name, RoundUp8(stksize), ticks, calls)
    case Fatal(f) => Fatal(f)
    case Ok((k1, pid)) =>
      if k.current.Some? then Fatal(StartAfterStartup)
      else Ok((MakeReady(k1, pid), pid))
  }

  /** What init asks of start: one process with its name and stack size, and the counts its heap slot held. */
  datatype StartReq = StartReq(name: seq<char>, stksize: int, ticks: nat, calls: nat)

  /** init: start each requested process in turn, stopping at the first panic. */
  function StartAll(k: Kernel, reqs: seq<StartReq>): (r: Outcome<Kernel>)
    requires Wf(k)
    ensures r.Fatal? ==> r.fault in {TooManyProcesses, NoSpaceForProcess, OutOfMemory, StartAfterStartup}
    ensures r.Ok? ==> Wf(r.value)
    decreases |reqs|
  {
    if reqs == [] then Ok(k)
    else
      match Start(k, reqs[0].name, reqs[0].stksize, reqs[0].ticks, reqs[0].calls)
      case Fatal(f) => Fatal(f)
      case Ok((k1, _)) => StartAll(k1, reqs[1..])
  }

  /**
   * __start: create the idle process as process 0, IDLING at the idle
   * priority; run init; and make the idle process current, so that its
   * first yield picks a genuine process.  (idleTicks, idleCalls) are the
   * counts the idle descriptor's heap slot held.
   */
  function StartSystem(heap: Heap, idleTicks: nat, idleCalls: nat, reqs: seq<StartReq>): (r: Outcome<Kernel>)
    ensures r.Fatal? ==> r.fault in {TooManyProcesses, NoSpaceForProcess, OutOfMemory}
  {
    match CreateProc(Initial(heap), "IDLE", IDLE_STACK, idleTicks, idleCalls)
    case Fatal(f) => Fatal(f)
    case Ok((k1, idle)) =>
      var k2 := SetProc(k1, idle, k1.procs[idle].(state := Idling, priority := P_IDLE)).(idle := idle);
      match StartAll(k2, reqs)
      case Fatal(f) =>
        StartAllBeforeScheduler(k2, reqs);
        Fatal(f)
      case Ok(k3) => Ok(k3.(current := Some(idle)))
  }

  /** Before the scheduler runs, start never refuses for that reason, and init keeps nobody running. */
  lemma {:induction false} StartAllBeforeScheduler(k: Kernel, reqs: seq<StartReq>)
    requires Wf(k) && k.current.None?
    ensures StartAll(k, reqs).Fatal? ==> StartAll(k, reqs).fault != StartAfterStartup
    ensures StartAll(k, reqs).Ok? ==> StartAll(k, reqs).value.current.None?
    decreases |reqs|
  {
    if reqs != [] {
      var s := Start(k, reqs[0].name, reqs[0].stksize, reqs[0].ticks, reqs[0].calls);
      if s.Ok? {
        var (k1, _) := s.value;
        assert k1.current.None?;
        StartAllBeforeScheduler(k1, reqs[1..]);
      }
    }
  }

  // ---------------------------------------------------------------------
  // Booting establishes the invariant

  /** The slots at and above nprocs are unused. */
  predicate Fresh(k: Kernel)
    requires Wf(k)
  {
    forall p: Pid :: p >= k.nprocs ==> k.procs[p] == Blank(p)
  }

  /** The state during init: the invariant with nobody running, the idle process below every started one, and the rest of the table unused. */
  predicate Booting(k: Kernel)
  {
    PreChoose(k) && k.current.None? && k.idle < k.nprocs && Fresh(k)
  }

  /** No waiting list holds anything, so the waiting bag is empty. */
  lemma WaitBagEmpty(ps: seq<Desc>)
    requires forall i :: 0 <= i < |ps| ==> ps[i].waiting == []
    ensures WaitBag(ps) == multiset{}
  {
    WaitBagIsBag(ps);
    BagEmpty(WaitLists(ps));
  }

  /** A kernel with every queue and the timer table empty, and no process runnable, blocked or timed, satisfies the invariant with nobody running. */
  lemma QuietCore(k: Kernel)
    requires Wf(k) && IdleOk(k) && k.timeouts == [] && k.nextTime.None?
    requires forall q :: 0 <= q < NPRIO ==> k.readyq[q] == []
    requires forall p: Pid :: k.procs[p].waiting == [] && k.procs[p].timeout.None?
    requires forall p: Pid :: k.procs[p].state != Active && !Blocked(k.procs[p].state)
    ensures Core(k, {})
  {
    ReadyEmpty(k);
    WaitBagEmpty(k.procs);
    forall p: Pid ensures PidOk(k, p, {}) {
      assert k.procs[p].timeout.None?;
    }
  }

  /** Right after the idle process is created, the boot invariant holds. */
  lemma IdleCreated(heap: Heap, idleTicks: nat, idleCalls: nat)
    requires CreateProc(Initial(heap), "IDLE", IDLE_STACK, idleTicks, idleCalls).Ok?
    ensures var (k1, idle) := CreateProc(Initial(heap), "IDLE", IDLE_STACK, idleTicks, idleCalls).value;
      idle == 0 && Booting(SetProc(k1, idle, k1.procs[idle].(state := Idling, priority := P_IDLE)).(idle := idle))
  {
    var k0 := Initial(heap);
    var (k1, idle) := CreateProc(k0, "IDLE", IDLE_STACK, idleTicks, idleCalls).value;
    var k2 := SetProc(k1, idle, k1.procs[idle].(state := Idling, priority := P_IDLE)).(idle := idle);
    assert idle == 0 && k2.nprocs == 1 && k2.current.None?;
    assert k2.procs[0].state == Idling && k2.procs[0].waiting == [] && k2.procs[0].timeout.None?;
    assert forall p: Pid :: p != 0 ==> k2.procs[p] == Blank(p);
    assert Fresh(k2);
    QuietCore(k2);
  }

  /** start, before the scheduler runs, keeps the boot invariant. */
  lemma StartKeeps(k: Kernel, name: seq<char>, stksize: int, ticks: nat, calls: nat)
    requires Booting(k) && Start(k, name, stksize, ticks, calls).Ok?
    ensures Booting(Start(k, name, stksize, ticks, calls).value.0)
  {
    var (k1, pid) := CreateProc(k, name, RoundUp8(stksize), ticks, calls).value;
    CreatedCore(k, k1, pid);
    MakeReadyKeeps(k1, {pid}, pid);
    assert {pid} - {pid} == {};
    StartFresh(k, name, stksize, ticks, calls);
  }

  /** create_proc, during init, leaves the invariant holding with only the new process off its queue. */
  lemma CreatedCore(k: Kernel, k1: Kernel, pid: Pid)
    requires Booting(k) && pid == k.nprocs && Wf(k1)
    requires k1 == k.(procs := k.procs[pid := k1.procs[pid]], nprocs := k1.nprocs, heap := k1.heap)
    requires k1.procs[pid].state == Active && k1.procs[pid].priority == P_LOW
    requires k1.procs[pid].waiting == [] && k1.procs[pid].timeout.None?
    ensures Core(k1, {pid}) && k1.procs[pid].timeout.None? && k1.procs[pid].priority != P_IDLE
  {
    var d := k1.procs[pid];
    assert k.procs[pid] == Blank(pid);
    Release(k, {}, pid);
    assert {} + {pid} == {pid};
    var ks := SetProc(k, pid, d);
    SetProcKeeps(k, {pid}, pid, d);
    OthersKeep(ks, k1, {pid});
  }

  /** start, during init, uses up exactly the next slot of the table and keeps nobody running. */
  lemma StartFresh(k: Kernel, name: seq<char>, stksize: int, ticks: nat, calls: nat)
    requires Booting(k) && Start(k, name, stksize, ticks, calls).Ok?
    ensures var k2 := Start(k, name, stksize, ticks, calls).value.0;
      Fresh(k2) && k2.current.None? && k2.idle == k.idle && k2.nprocs == k.nprocs + 1
  {
    var k2 := Start(k, name, stksize, ticks, calls).value.0;
    forall p: Pid | p >= k2.nprocs
      ensures k2.procs[p] == Blank(p)
    {
      assert k2.procs[p] == k.procs[p];
    }
  }

  /** init keeps the boot invariant and adds one process per request. */
  lemma {:induction false} StartAllKeeps(k: Kernel, reqs: seq<StartReq>)
    requires Booting(k) && StartAll(k, reqs).Ok?
    ensures Booting(StartAll(k, reqs).value)
    ensures StartAll(k, reqs).value.nprocs == k.nprocs + |reqs| && StartAll(k, reqs).value.idle == k.idle
    decreases |reqs|
  {
    if reqs != [] {
      var r := reqs[0];
      StartKeeps(k, r.name, r.stksize, r.ticks, r.calls);
      var k1 := Start(k, r.name, r.stksize, r.ticks, r.calls).value.0;
      StartAllKeeps(k1, reqs[1..]);
    }
  }

  /**
   * Booting establishes the kernel invariant: once __start hands over to
   * the idle process, it is process 0 and current, and every process
   * init started is ready.
   */
  lemma BootEstablishesInv(heap: Heap, idleTicks: nat, idleCalls: nat, reqs: seq<StartReq>)
    requires StartSystem(heap, idleTicks, idleCalls, reqs).Ok?
    ensures var k := StartSystem(heap, idleTicks, idleCalls, reqs).value;
      && Inv(k) && k.idle == 0 && k.current == Some(0) && k.nprocs == |reqs| + 1
  {
    IdleCreated(heap, idleTicks, idleCalls);
    var (k1, idle) := CreateProc(Initial(heap), "IDLE", IDLE_STACK, idleTicks, idleCalls).value;
    var k2 := SetProc(k1, idle, k1.procs[idle].(state := Idling, priority := P_IDLE)).(idle := idle);
    StartAllKeeps(k2, reqs);
    HandOver(StartAll(k2, reqs).value);
  }

  /** Making the idle process current at the end of boot turns the boot invariant into the kernel invariant. */
  lemma HandOver(k: Kernel)
    requires Booting(k)
    ensures Inv(k.(current := Some(k.idle)))
  {
    Release(k, {}, k.idle);
    assert {} + {k.idle} == {k.idle};
    OthersKeep(k, k.(current := Some(k.idle)), {k.idle});
  }

  /** The process table holds 32 processes, the idle process among them, so init can start at most 31. */
  lemma BootCapacity(heap: Heap, idleTicks: nat, idleCalls: nat, reqs: seq<StartReq>)
    requires |reqs| >= NPROCS
    ensures StartSystem(heap, idleTicks, idleCalls, reqs).Fatal?
  {
    if StartSystem(heap, idleTicks, idleCalls, reqs).Ok? {
      BootEstablishesInv(heap, idleTicks, idleCalls, reqs);
    }
  }
}
