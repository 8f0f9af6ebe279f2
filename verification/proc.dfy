/**
 * Process descriptors and their storage.  Descriptors are carved from the
 * top of the heap and stacks from the bottom, so a stack that overruns
 * meets free space before any descriptor.  A new descriptor starts ACTIVE
 * at the normal priority with nothing waiting and no timer.
 */
module Proc {
  import opened Messages
  import opened Options

  /** Priorities: 0 is the most urgent; the idle process has a level of its own and no queue. */
  const P_HANDLER: int := 0
  const P_HIGH: int := 1
  const P_LOW: int := 2
  const P_IDLE: int := 3
  /** The number of ready queues, one per non-idle priority. */
  const NPRIO: int := 3

  /** The capacity of the process table. */
  const NPROCS: int := 32

  /** A process id: an index into the process table. */
  type Pid = x: nat | x < NPROCS

  /** A priority level, the idle level included. */
  type Priority = x: int | P_HANDLER <= x <= P_IDLE

  /** The filler word of a fresh stack. */
  const BLANK: int := 0xdead_beef

  /**
   * sizeof(struct _proc) on the 32-bit ARM ABI: 60 bytes of int, pointer
   * and name fields, n_ticks at offset 64, n_calls at 72, age at 80, next
   * at 88, and the size rounded to the 8-byte alignment of the 64-bit
   * fields.
   */
  const DescSize: int := 96

  const Pow32: int := 0x1_0000_0000
  /** The range of the 64-bit tick counter n_ticks. */
  const Pow64: int := 0x1_0000_0000_0000_0000

  datatype State = Dead | Active | Sending | Receiving | SendRec | Idling

  /**
   * A process descriptor.  The intrusive next link is replaced by the
   * sequences that hold pids (ready queues and waiting lists); buf is the
   * message msgbuf points at, None for NULL; timeout is None for NO_TIME.
   * The saved stack pointer and the run-time age are not modelled.
   */
  datatype Desc = Desc(
    pid: Pid, name: seq<char>, state: State, stack: int, stksize: int,
    priority: Priority, waiting: seq<Pid>, pending: bool, filter: int,
    buf: Option<Message>, timeout: Option<int>, nTicks: nat, nCalls: nat)

  /** Why the kernel panicked (or an assert failed). */
  datatype Fault =
    | TooManyProcesses | OutOfMemory | NoSpaceForProcess
    | NoSuchProcess(dest: int) | DeadProcess(dest: int)
    | SendrecReply | BadStateInReceive | AssertFailed | UnsetTimeout
    | StackOverflow | UnknownSyscall(op: int) | ConnectException
    | BadPriority(p: int) | UnexpectedInterrupt(irq: int) | StartAfterStartup

  /** The result of a kernel operation: its value, or the panic that stopped the system. */
  datatype Outcome<T> = Ok(value: T) | Fatal(fault: Fault)

  // ---------------------------------------------------------------------
  // Storage allocation

  /** The free space between the end of the static data and the main stack: [hbot, htop). */
  datatype Heap = Heap(hbot: int, htop: int)

  /** ROUNDUP(x, 8) = (x + 7) & ~7: the least multiple of 8 at or above x. */
  function RoundUp8(x: int): (r: int)
    ensures r % 8 == 0 && x <= r < x + 8
  {
    ((x + 7) / 8) * 8
  }

  /**
   * sbrk(inc): rounds the bottom of the heap and the request up to
   * multiples of 8, and hands out the request from the bottom, unless it
   * exceeds the space left.
   */
  function Sbrk(h: Heap, inc: int): (r: Outcome<(Heap, int)>)
    ensures r.Fatal? <==> RoundUp8(inc) > h.htop - RoundUp8(h.hbot)
    ensures r.Fatal? ==> r.fault == OutOfMemory
    ensures r.Ok? ==>
      var (h', block) := r.value;
      && block % 8 == 0 && h.hbot <= block < h.hbot + 8
      && h'.hbot == block + RoundUp8(inc) && h'.hbot <= h'.htop == h.htop
  {
    var bot := RoundUp8(h.hbot);
    var n := RoundUp8(inc);
    if n > h.htop - bot then Fatal(OutOfMemory)
    else Ok((Heap(bot + n, h.htop), bot))
  }

  /**
   * new_proc(): takes a descriptor from the top of the heap.  The test
   * htop - hbot < sizeof(struct _proc) compares a signed difference with
   * an unsigned size, so the difference is taken modulo 2^32.
   */
  function NewProc(h: Heap): (r: Outcome<(Heap, int)>)
    ensures r.Fatal? <==> (h.htop - h.hbot) % Pow32 < DescSize
    ensures r.Fatal? ==> r.fault == NoSpaceForProcess
    ensures r.Ok? ==> r.value.0 == Heap(h.hbot, h.htop - DescSize) && r.value.1 == h.htop - DescSize
  {
    if (h.htop - h.hbot) % Pow32 < DescSize then Fatal(NoSpaceForProcess)
    else Ok((Heap(h.hbot, h.htop - DescSize), h.htop - DescSize))
  }

  /**
   * While the heap is not inverted and smaller than 4 GiB, new_proc fails
   * exactly when fewer than sizeof(struct _proc) bytes remain, and it
   * keeps the heap not inverted.
   */
  lemma NewProcSpace(h: Heap)
    requires h.hbot <= h.htop < h.hbot + Pow32
    ensures NewProc(h).Fatal? <==> h.htop - h.hbot < DescSize
    ensures NewProc(h).Ok? ==> NewProc(h).value.0.hbot <= NewProc(h).value.0.htop
  {
  }

  /**
   * A descriptor and then a stack taken from a heap: the stack block lies
   * wholly below the descriptor, and the heap stays not inverted.
   */
  lemma StackBelowDescriptor(h: Heap, inc: int)
    requires NewProc(h).Ok? && Sbrk(NewProc(h).value.0, inc).Ok?
    ensures var (h1, desc) := NewProc(h).value;
      var (h2, stack) := Sbrk(h1, inc).value;
      stack + RoundUp8(inc) <= desc && h2.hbot <= h2.htop && h2.htop == desc
  {
  }

  // ---------------------------------------------------------------------
  // Names

  /** The C string a char array holds: its characters before the first NUL. */
  function CString(s: seq<char>): (c: seq<char>)
    ensures |c| <= |s| && c == s[..|c|] && '\0' !in c
    ensures |c| < |s| ==> s[|c|] == '\0'
    decreases |s|
  {
    if |s| == 0 || s[0] == '\0' then [] else [s[0]] + CString(s[1..])
  }

  /**
   * The name field after strncpy(p->name, name, 15); p->name[15] = '\0':
   * at most 15 characters of the name, padded with NULs to 16.
   */
  function NameField(name: seq<char>): (f: seq<char>)
    ensures |f| == 16 && f[15] == '\0'
  {
    var c := CString(name);
    var t := if |c| <= 15 then c else c[..15];
    t + seq(16 - |t|, _ => '\0')
  }

  /** The stored name reads back as the name cut to 15 characters. */
  lemma {:induction false} NameFieldReadsBack(name: seq<char>)
    ensures var c := CString(name);
      CString(NameField(name)) == if |c| <= 15 then c else c[..15]
  {
    var c := CString(name);
    var t := if |c| <= 15 then c else c[..15];
    CStringOfPadded(t, 16 - |t|);
  }

  /** A string without NUL followed by at least one NUL reads back as the string. */
  lemma {:induction false} CStringOfPadded(t: seq<char>, n: nat)
    requires '\0' !in t && n > 0
    ensures CString(t + seq(n, _ => '\0')) == t
    decreases |t|
  {
    var s := t + seq(n, _ => '\0');
    if |t| > 0 {
      assert s[1..] == t[1..] + seq(n, _ => '\0');
      CStringOfPadded(t[1..], n);
      assert t == [t[0]] + t[1..];
    }
  }

  // ---------------------------------------------------------------------
  // Descriptors and stacks

  /**
   * The descriptor create_proc fills in.  n_ticks and n_calls are not
   * initialised by create_proc, so they hold whatever the heap held; they
   * are parameters here.
   */
  function NewDesc(pid: Pid, name: seq<char>, stack: int, stksize: int, nTicks: nat, nCalls: nat): (d: Desc)
    ensures d.pid == pid && d.state == Active && d.priority == P_LOW
    ensures d.name == NameField(name)
    ensures d.waiting == [] && !d.pending && d.filter == ANY
    ensures d.buf == None && d.timeout == None
    ensures d.stack == stack && d.stksize == stksize && |d.name| == 16
  {
    Desc(pid, NameField(name), Active, stack, stksize, P_LOW, [], false, ANY, None, None, nTicks, nCalls)
  }

  /** The word addresses of a stack of the given size: stack, stack + 4, ... below stack + stksize. */
  predicate InStack(a: int, stack: int, stksize: int)
  {
    stack <= a < stack + stksize && (a - stack) % 4 == 0
  }

  /**
   * The blanking loop of create_proc over word memory (byte address to
   * word): every word of the stack becomes BLANK and nothing else
   * changes.
   */
  method BlankStack(mem: map<int, int>, stack: int, stksize: nat) returns (r: map<int, int>)
    ensures forall a :: InStack(a, stack, stksize) ==> a in r && r[a] == BLANK
    ensures forall a :: a in mem && !InStack(a, stack, stksize) ==> a in r && r[a] == mem[a]
    ensures forall a :: a in r ==> a in mem || InStack(a, stack, stksize)
  {
    r := mem;
    var p := stack;
    while p < stack + stksize
      invariant stack <= p && (p - stack) % 4 == 0
      invariant forall a :: InStack(a, stack, stksize) && a < p ==> a in r && r[a] == BLANK
      invariant forall a :: a in mem && !(InStack(a, stack, stksize) && a < p) ==> a in r && r[a] == mem[a]
      invariant forall a :: a in r ==> a in mem || (InStack(a, stack, stksize) && a < p)
      decreases stack + stksize - p
    {
      forall a | InStack(a, stack, stksize) && a < p + 4
        ensures a < p || a == p
      {
        WordStep(a, p, stack);
      }
      r := r[p := BLANK];
      p := p + 4;
    }
  }

  /** Word addresses of a stack are 4 apart: none lies strictly between p and p + 4. */
  lemma WordStep(a: int, p: int, stack: int)
    requires (a - stack) % 4 == 0 && (p - stack) % 4 == 0 && a < p + 4
    ensures a < p || a == p
  {
  }

  /** After blanking a non-empty stack, the word the overflow check reads is BLANK. */
  lemma BlankedBase(r: map<int, int>, stack: int, stksize: int)
    requires stksize > 0
    requires forall a :: InStack(a, stack, stksize) ==> a in r && r[a] == BLANK
    ensures stack in r && r[stack] == BLANK
  {
    assert InStack(stack, stack, stksize);
  }

  // ---------------------------------------------------------------------
  // Scheduling score

  /**
   * score(p) = n_ticks / n_calls, truncated to an unsigned long; undefined
   * (a division by zero) while n_calls is 0.  ScoreIsAverage states what
   * the value means.
   */
  function Score(d: Desc): (r: Option<nat>)
    ensures r.None? <==> d.nCalls == 0
    ensures r.Some? ==> r.value < Pow32
  {
    if d.nCalls == 0 then None else Some((d.nTicks / d.nCalls) % Pow32)
  }

  lemma NonNegMul(a: int, b: int)
    requires a >= 0 && b >= 0
    ensures a * b >= 0
  {
  }

  /** For counts below 2^32 the score is the average: score * n_calls <= n_ticks < (score + 1) * n_calls. */
  lemma ScoreIsAverage(d: Desc)
    requires d.nCalls > 0 && d.nTicks < Pow32
    ensures Score(d).value * d.nCalls <= d.nTicks < (Score(d).value + 1) * d.nCalls
  {
    var t, c := d.nTicks, d.nCalls;
    var q := t / c;
    assert t == q * c + t % c;
    assert q * c - q == q * (c - 1);
    NonNegMul(q, c - 1);
    assert (q + 1) * c == q * c + c;
    assert q % Pow32 == q;
  }
}
