/**
 * Receive timeouts.  Times are kept relative to the last scan: ticks
 * counts the milliseconds since then, the timeout field of a process is
 * its due time on the same scale, and nextTime bounds the earliest due
 * time from below, so that a tick whose accumulated ticks have not passed
 * nextTime needs no scan.  A timer fires on the first tick whose
 * accumulated ticks strictly exceed its due time, so none fires early.
 * The NO_TIME sentinel of the timeout and next_time fields is None here.
 */
module Timers {
  import opened Messages
  import opened Options
  import opened Proc
  import opened Kernel

  /** No pid occurs twice in s. */
  predicate NoDup(s: seq<Pid>)
  {
    forall i, j :: 0 <= i < j < |s| ==> s[i] != s[j]
  }

  /** Every pid of ps is a process with a timer. */
  predicate Timed(k: Kernel, ps: seq<Pid>)
    requires Wf(k)
  {
    forall p :: p in ps ==> k.procs[p].timeout.Some?
  }

  /** What remains of p's timeout, counted from now: its due time less the ticks accumulated since the last scan. */
  function Remaining(k: Kernel, p: Pid): int
    requires Wf(k) && k.procs[p].timeout.Some?
  {
    k.procs[p].timeout.value - k.ticks
  }

  /** nextTime is a lower bound on every due time, and NO_TIME only while no timer is set. */
  predicate NextTimeBound(k: Kernel)
    requires Wf(k) && Timed(k, k.timeouts)
  {
    && (k.nextTime.None? ==> k.timeouts == [])
    && (k.nextTime.Some? ==> forall p :: p in k.timeouts ==> k.nextTime.value <= k.procs[p].timeout.value)
  }

  /**
   * set_timeout(ms) for the current process: due at ticks + ms, recorded
   * at the end of the table, with nextTime lowered to it.  A full table,
   * or a timer already set, fails an assertion.
   */
  function SetTimeout(k: Kernel, ms: int): (r: Outcome<Kernel>)
    requires Wf(k) && k.current.Some?
    ensures r.Ok? <==> |k.timeouts| < NPROCS && k.procs[k.current.value].timeout.None?
    ensures r.Fatal? ==> r.fault == AssertFailed
    ensures r.Ok? ==>
      var p, due := k.current.value, k.ticks + ms;
      && Wf(r.value) && Waiting(r.value) == Waiting(k)
      && r.value == k.(procs := k.procs[p := k.procs[p].(timeout := Some(due))],
                      timeouts := k.timeouts + [p], nextTime := r.value.nextTime)
      && r.value.nextTime.Some? && r.value.nextTime.value <= due
      && (r.value.nextTime.value == due || r.value.nextTime == k.nextTime)
      && (k.nextTime.Some? ==> r.value.nextTime.value <= k.nextTime.value)
  {
    var p := k.current.value;
    var due := k.ticks + ms;
    if |k.timeouts| >= NPROCS || k.procs[p].timeout.Some? then Fatal(AssertFailed)
    else
      var k1 := SetProc(k, p, k.procs[p].(timeout := Some(due)));
      var next := if k.nextTime.None? || due < k.nextTime.value then Some(due) else k.nextTime;
      Ok(k1.(timeouts := k.timeouts + [p], nextTime := next))
  }

  /** The first index at or after from at which x occurs in s, if any. */
  function IndexOf(s: seq<Pid>, x: Pid, from: nat): (r: Option<nat>)
    ensures r.Some? ==> from <= r.value < |s| && s[r.value] == x
    ensures r.Some? ==> forall j :: from <= j < r.value ==> s[j] != x
    ensures r.None? ==> forall j :: from <= j < |s| ==> s[j] != x
    decreases |s| - from
  {
    if from >= |s| then None
    else if s[from] == x then Some(from)
    else IndexOf(s, x, from + 1)
  }

  /**
   * cancel_timeout(p): p's timer is cleared and its entry replaced by the
   * last one.  A process without a timer fails an assertion; one with a
   * timer but no entry in the table panics.
   */
  function CancelTimeout(k: Kernel, p: Pid): (r: Outcome<Kernel>)
    requires Wf(k)
    ensures r.Ok? <==> k.procs[p].timeout.Some? && p in k.timeouts
    ensures k.procs[p].timeout.None? ==> r == Fatal(AssertFailed)
    ensures k.procs[p].timeout.Some? && p !in k.timeouts ==> r == Fatal(UnsetTimeout)
    ensures r.Ok? ==>
      && Wf(r.value) && Waiting(r.value) == Waiting(k)
      && r.value == k.(procs := k.procs[p := k.procs[p].(timeout := None)], timeouts := r.value.timeouts)
      && multiset(r.value.timeouts) + multiset{p} == multiset(k.timeouts)
      && (NoDup(k.timeouts) ==> NoDup(r.value.timeouts) && p !in r.value.timeouts)
  {
    if k.procs[p].timeout.None? then Fatal(AssertFailed)
    else
      var i := IndexOf(k.timeouts, p, 0);
      if i.None? then Fatal(UnsetTimeout)
      else
        var k1 := SetProc(k, p, k.procs[p].(timeout := None));
        Ok(k1.(timeouts := SwapOut(k.timeouts, i.value)))
  }

  /**
   * timeout[i] = timeout[--n_timeouts]: entry i is overwritten by the last
   * entry, which is dropped, so exactly entry i leaves the table.
   */
  function SwapOut(s: seq<Pid>, i: nat): (t: seq<Pid>)
    requires i < |s|
    ensures multiset(t) + multiset{s[i]} == multiset(s)
    ensures NoDup(s) ==> NoDup(t) && s[i] !in t
  {
    SwapRemove(s, i);
    SwapRemoveNoDup(s, i);
    s[i := s[|s| - 1]][..|s| - 1]
  }

  /** Overwriting entry i with the last entry and dropping the last removes exactly entry i. */
  lemma SwapRemove(s: seq<Pid>, i: nat)
    requires i < |s|
    ensures var t := s[i := s[|s| - 1]][..|s| - 1];
      multiset(t) + multiset{s[i]} == multiset(s) && forall x :: x in t ==> x in s
  {
    var n := |s| - 1;
    var t := s[i := s[n]][..n];
    if i == n {
      assert s == t + [s[n]];
    } else {
      assert s == s[..i] + [s[i]] + s[i + 1..n] + [s[n]];
      assert t == s[..i] + [s[n]] + s[i + 1..n];
    }
  }

  // ---------------------------------------------------------------------
  // The tick

  /** The processes of ts whose timers survive a scan at the given ticks, in order. */
  function Surviving(k: Kernel, ts: seq<Pid>, ticks: int): (r: seq<Pid>)
    requires Wf(k) && Timed(k, ts)
    ensures forall p :: p in r <==> p in ts && k.procs[p].timeout.value >= ticks
    ensures |r| <= |ts| && (NoDup(ts) ==> NoDup(r))
  {
    if ts == [] then []
    else
      var rest := Surviving(k, ts[1..], ticks);
      assert forall p :: p in ts[1..] ==> p in ts;
      assert NoDup(ts) ==> ts[0] !in ts[1..];
      if k.procs[ts[0]].timeout.value >= ticks then [ts[0]] + rest else rest
  }

  /** Surviving depends only on the timers of the processes listed. */
  lemma {:induction false} SurvivingFrame(k: Kernel, k': Kernel, ts: seq<Pid>, ticks: int)
    requires Wf(k) && Wf(k') && Timed(k, ts) && Timed(k', ts)
    requires forall p :: p in ts ==> k'.procs[p].timeout == k.procs[p].timeout
    ensures Surviving(k', ts, ticks) == Surviving(k, ts, ticks)
  {
    if ts != [] {
      assert forall p :: p in ts[1..] ==> p in ts;
      SurvivingFrame(k, k', ts[1..], ticks);
    }
  }

  /** A timer that fires: it is cleared, TIMEOUT from HARDWARE is delivered, and p is made ready. */
  function Fire(k: Kernel, p: Pid): (r: Kernel)
    requires Wf(k)
    ensures Wf(r) && r.procs[p].timeout.None?
    ensures forall x: Pid :: x != p ==> r.procs[x] == k.procs[x]
    ensures r == k.(procs := r.procs, readyq := r.readyq)
  {
    MakeReady(DeliverSpecial(SetProc(k, p, k.procs[p].(timeout := None)), p, HARDWARE, TIMEOUT), p)
  }

  /** A fired process has TIMEOUT from HARDWARE in its buffer and is made ready. */
  lemma FireEffect(k: Kernel, p: Pid)
    requires Wf(k)
    ensures var r := Fire(k, p);
      && r.procs[p] == k.procs[p].(timeout := None, state := ReadiedState(k, p),
           buf := Stamped(k.procs[p].buf, HARDWARE, TIMEOUT))
      && Ready(r) == Ready(k) + Readied(k, p) && Waiting(r) == Waiting(k)
      && r.readyq == (if k.procs[p].priority == P_IDLE then k.readyq
                      else k.readyq[k.procs[p].priority := k.readyq[k.procs[p].priority] + [p]])
  {
    var k1 := SetProc(k, p, k.procs[p].(timeout := None));
    var k2 := DeliverSpecial(k1, p, HARDWARE, TIMEOUT);
    assert k2.readyq == k.readyq;
    assert Readied(k2, p) == Readied(k, p) && ReadiedState(k2, p) == ReadiedState(k, p);
  }

  /**
   * One step of the scan for process p: a timer due at or after ticks is
   * moved to the next scale, ticks + ms later; an earlier one fires.
   */
  function Expire(k: Kernel, p: Pid, ticks: int, ms: int): (r: Kernel)
    requires Wf(k) && k.procs[p].timeout.Some?
    ensures Expired(k, r, p, ticks, ms)
    ensures forall x: Pid :: x != p ==> r.procs[x] == k.procs[x]
  {
    var d := k.procs[p];
    var t := d.timeout.value;
    if t >= ticks then SetProc(k, p, d.(timeout := Some(t - (ticks + ms))))
    else Fire(k, p)
  }

  /** k' is k after one scan step for p: only p's timer changed, as NewTimer says, among the timers. */
  predicate Expired(k: Kernel, k': Kernel, p: Pid, ticks: int, ms: int)
    requires Wf(k) && k.procs[p].timeout.Some?
  {
    && Wf(k') && k' == k.(procs := k'.procs, readyq := k'.readyq)
    && k'.procs[p].timeout == NewTimer(k, p, ticks, ms)
    && (forall x: Pid :: x != p ==> k'.procs[x].timeout == k.procs[x].timeout)
  }

  /** The earlier of two optional due times; None is later than any time. */
  function MinOpt(a: Option<int>, b: Option<int>): (r: Option<int>)
    ensures r.None? <==> a.None? && b.None?
    ensures r == a || r == b
    ensures r.Some? ==> (a.Some? ==> r.value <= a.value) && (b.Some? ==> r.value <= b.value)
  {
    if a.None? then b else if b.None? || a.value < b.value then a else b
  }

  /** The earliest due time among the timers in table procs of ps, if any. */
  function MinTimeout(procs: seq<Desc>, ps: seq<Pid>): (r: Option<int>)
    requires |procs| == NPROCS && forall p :: p in ps ==> procs[p].timeout.Some?
    ensures r.None? <==> ps == []
    ensures r.Some? ==> forall p :: p in ps ==> r.value <= procs[p].timeout.value
    ensures r.Some? ==> exists i :: 0 <= i < |ps| && procs[ps[i]].timeout.value == r.value
  {
    if ps == [] then None
    else
      assert ps[0] in ps;
      assert forall x :: x in ps[1..] ==> x in ps;
      var m := MinTimeout(procs, ps[1..]);
      MinOpt(Some(procs[ps[0]].timeout.value), m)
  }

  /**
   * The loop of mini_tick over the timeout table ts: each entry in turn is
   * expired, the survivors are kept in order, and next is the running
   * minimum of their new due times.  An entry without a timer fails an
   * assertion.
   */
  function Scan(k: Kernel, ts: seq<Pid>, ticks: int, ms: int, next: Option<int>): (r: Outcome<(Kernel, seq<Pid>, Option<int>)>)
    requires Wf(k)
    ensures r.Fatal? ==> r.fault == AssertFailed
    ensures r.Ok? ==> ScanFrame(k, r.value.0)
    ensures r.Ok? ==> forall x: Pid :: x !in ts ==> r.value.0.procs[x] == k.procs[x]
    decreases |ts|
  {
    if ts == [] then Ok((k, [], next))
    else
      var p := ts[0];
      if k.procs[p].timeout.None? then Fatal(AssertFailed)
      else
        var t' := NewTimer(k, p, ticks, ms);
        var rest := Scan(Expire(k, p, ticks, ms), ts[1..], ticks, ms, MinOpt(t', next));
        if rest.Fatal? then rest
        else
          var res := rest.value;
          Ok((res.0, if t'.Some? then [p] + res.1 else res.1, res.2))
  }

  /** A scan of a duplicate-free table of timed processes succeeds with the result ScanResult describes. */
  lemma {:induction false} ScanCorrect(k: Kernel, ts: seq<Pid>, ticks: int, ms: int, next: Option<int>)
    requires Wf(k) && Timed(k, ts) && NoDup(ts)
    ensures var r := Scan(k, ts, ticks, ms, next);
      r.Ok? && ScanResult(k, ts, ticks, ms, next, r.value)
    decreases |ts|
  {
    if ts != [] {
      var p := ts[0];
      assert p in ts;
      var k1 := Expire(k, p, ticks, ms);
      var next1 := MinOpt(NewTimer(k, p, ticks, ms), next);
      TailFacts(k, k1, ts);
      ScanCorrect(k1, ts[1..], ticks, ms, next1);
      var rest := Scan(k1, ts[1..], ticks, ms, next1);
      ScanStep(k, k1, ts, ticks, ms, next, rest.value);
      ScanCons(k, ts, ticks, ms, next, rest);
    }
  }

  /** What no scan changes: the variables other than the table, the ready queues and the timeout table. */
  predicate ScanFrame(k: Kernel, k': Kernel)
  {
    Wf(k') && k' == k.(procs := k'.procs, readyq := k'.readyq)
  }

  /**
   * What a scan of a duplicate-free table of timed processes yields: the
   * survivors in order, each listed process's new timer, every other
   * timer untouched, and next lowered to the earliest surviving due time.
   */
  predicate ScanResult(k: Kernel, ts: seq<Pid>, ticks: int, ms: int, next: Option<int>, res: (Kernel, seq<Pid>, Option<int>))
    requires Wf(k) && Timed(k, ts)
  {
    && Wf(res.0)
    && res.1 == Surviving(k, ts, ticks)
    && NewTimers(k, res.0, ts, ticks, ms)
    && Timed(res.0, res.1) && res.2 == MinOpt(next, MinTimeout(res.0.procs, res.1))
  }

  /** Each listed process has its new timer; every other timer is untouched. */
  predicate NewTimers(k: Kernel, k': Kernel, ts: seq<Pid>, ticks: int, ms: int)
    requires Wf(k) && Wf(k') && Timed(k, ts)
  {
    && (forall p :: p in ts ==> k'.procs[p].timeout == NewTimer(k, p, ticks, ms))
    && (forall p: Pid :: p !in ts ==> k'.procs[p].timeout == k.procs[p].timeout)
  }

  /** The timer a scan at ticks leaves p with: moved to the new scale if not yet due, cleared if it fired. */
  function NewTimer(k: Kernel, p: Pid, ticks: int, ms: int): Option<int>
    requires Wf(k) && k.procs[p].timeout.Some?
  {
    var t := k.procs[p].timeout.value;
    if t >= ticks then Some(t - (ticks + ms)) else None
  }

  /** Taking the minimum is associative and commutative. */
  lemma MinOptSwap(a: Option<int>, n: Option<int>, m: Option<int>)
    ensures MinOpt(MinOpt(a, n), m) == MinOpt(n, MinOpt(a, m))
  {
  }

  /** The facts about the rest of a duplicate-free table that the scan step needs. */
  lemma TailFacts(k: Kernel, k1: Kernel, ts: seq<Pid>)
    requires Wf(k) && Wf(k1) && ts != [] && Timed(k, ts) && NoDup(ts)
    requires forall x: Pid :: x != ts[0] ==> k1.procs[x].timeout == k.procs[x].timeout
    ensures ts[0] !in ts[1..] && NoDup(ts[1..]) && Timed(k1, ts[1..])
    ensures forall x :: x in ts[1..] ==> x in ts && NewTimer(k1, x, 0, 0) == NewTimer(k, x, 0, 0)
  {
    assert forall i :: 0 <= i < |ts[1..]| ==> ts[1..][i] == ts[i + 1];
  }

  /** Timers equal on the listed processes give the same new timers. */
  lemma NewTimerFrame(k: Kernel, k1: Kernel, tail: seq<Pid>, ticks: int, ms: int)
    requires Wf(k) && Wf(k1) && Timed(k, tail)
    requires forall x :: x in tail ==> k1.procs[x].timeout == k.procs[x].timeout
    ensures forall x :: x in tail ==> NewTimer(k1, x, ticks, ms) == NewTimer(k, x, ticks, ms)
  {
  }

  /** The step for the timers: p's comes from the step itself, the others from the rest of the scan. */
  lemma NewTimersStep(k: Kernel, k1: Kernel, k': Kernel, ts: seq<Pid>, ticks: int, ms: int)
    requires Wf(k) && ts != [] && Timed(k, ts) && NoDup(ts)
    requires Expired(k, k1, ts[0], ticks, ms)
    requires Wf(k') && Timed(k1, ts[1..]) && NewTimers(k1, k', ts[1..], ticks, ms)
    ensures NewTimers(k, k', ts, ticks, ms)
  {
    TailFacts(k, k1, ts);
    NewTimerFrame(k, k1, ts[1..], ticks, ms);
  }

  /** The step for the running minimum. */
  lemma NextStep(k: Kernel, k': Kernel, p: Pid, rest: seq<Pid>, t': int, next: Option<int>, next': Option<int>)
    requires Wf(k') && Timed(k', rest) && k'.procs[p].timeout == Some(t')
    requires next' == MinOpt(MinOpt(Some(t'), next), MinTimeout(k'.procs, rest))
    ensures Timed(k', [p] + rest) && next' == MinOpt(next, MinTimeout(k'.procs, [p] + rest))
  {
    var kept := [p] + rest;
    assert kept[0] == p && kept[1..] == rest;
    assert MinTimeout(k'.procs, kept) == MinOpt(Some(t'), MinTimeout(k'.procs, rest));
    MinOptSwap(Some(t'), next, MinTimeout(k'.procs, rest));
  }

  /** One unfolding of Scan, for a table whose first entry has a timer and whose rest scans successfully. */
  lemma ScanCons(k: Kernel, ts: seq<Pid>, ticks: int, ms: int, next: Option<int>, rest: Outcome<(Kernel, seq<Pid>, Option<int>)>)
    requires Wf(k) && ts != [] && k.procs[ts[0]].timeout.Some?
    requires rest == Scan(Expire(k, ts[0], ticks, ms), ts[1..], ticks, ms, MinOpt(NewTimer(k, ts[0], ticks, ms), next))
    requires rest.Ok?
    ensures var res := rest.value;
      Scan(k, ts, ticks, ms, next) == Ok((res.0, Keep(k, ts[0], ticks, ms, res.1), res.2))
  {
  }

  /** The survivors after p: p in front of the rest if its timer survives. */
  function Keep(k: Kernel, p: Pid, ticks: int, ms: int, rest: seq<Pid>): seq<Pid>
    requires Wf(k) && k.procs[p].timeout.Some?
  {
    if NewTimer(k, p, ticks, ms).Some? then [p] + rest else rest
  }

  /** The inductive step of ScanCorrect. */
  lemma ScanStep(k: Kernel, k1: Kernel, ts: seq<Pid>, ticks: int, ms: int, next: Option<int>, res: (Kernel, seq<Pid>, Option<int>))
    requires Wf(k) && ts != [] && Timed(k, ts) && NoDup(ts)
    requires Expired(k, k1, ts[0], ticks, ms)
    requires Timed(k1, ts[1..]) && ScanResult(k1, ts[1..], ticks, ms, MinOpt(NewTimer(k, ts[0], ticks, ms), next), res)
    ensures ScanResult(k, ts, ticks, ms, next, (res.0, Keep(k, ts[0], ticks, ms, res.1), res.2))
  {
    var p := ts[0];
    TailFacts(k, k1, ts);
    SurvivingFrame(k, k1, ts[1..], ticks);
    NewTimersStep(k, k1, res.0, ts, ticks, ms);
    var t' := NewTimer(k, p, ticks, ms);
    if t'.Some? {
      NextStep(k, res.0, p, res.1, t'.value, next, res.2);
    }
  }

  /**
   * mini_tick(ms).  With no timer set nothing happens; while the
   * accumulated ticks have not passed nextTime they just grow by ms.
   * Otherwise the table is scanned: ticks restart from 0, the table keeps
   * the survivors, and nextTime becomes the earliest surviving due time.
   */
  function MiniTick(k: Kernel, ms: int): (r: Outcome<Kernel>)
    requires Wf(k)
    ensures r.Ok? ==> Wf(r.value) && r.value == k.(procs := r.value.procs, readyq := r.value.readyq,
      timeouts := r.value.timeouts, nextTime := r.value.nextTime, ticks := r.value.ticks)
    ensures r.Fatal? ==> r.fault == AssertFailed
    ensures k.nextTime.None? ==> r == Ok(k)
    ensures k.nextTime.Some? && k.ticks <= k.nextTime.value ==> r == Ok(k.(ticks := k.ticks + ms))
    ensures r.Ok? ==> forall x: Pid :: x !in k.timeouts ==> r.value.procs[x] == k.procs[x]
  {
    if k.nextTime.None? then Ok(k)
    else if k.ticks <= k.nextTime.value then Ok(k.(ticks := k.ticks + ms))
    else
      var s := Scan(k, k.timeouts, k.ticks, ms, None);
      if s.Fatal? then Fatal(s.fault)
      else Ok(s.value.0.(timeouts := s.value.1, nextTime := s.value.2, ticks := 0))
  }

  /**
   * Once the ticks have passed nextTime, a table of distinct timed
   * processes is scanned: ticks restart from 0 and the table, the timers
   * and nextTime are as ScanResult describes.
   */
  lemma MiniTickScans(k: Kernel, ms: int)
    requires Wf(k) && k.nextTime.Some? && k.ticks > k.nextTime.value && Timed(k, k.timeouts) && NoDup(k.timeouts)
    ensures var r := MiniTick(k, ms);
      && r.Ok? && r.value.ticks == 0
      && ScanResult(k, k.timeouts, k.ticks, ms, None, (r.value, r.value.timeouts, r.value.nextTime))
  {
    ScanCorrect(k, k.timeouts, k.ticks, ms, None);
    var res := Scan(k, k.timeouts, k.ticks, ms, None).value;
    var k' := res.0.(timeouts := res.1, nextTime := res.2, ticks := 0);
    assert MiniTick(k, ms) == Ok(k');
    assert k'.procs == res.0.procs;
  }


  // ---------------------------------------------------------------------
  // The timer invariant

  /**
   * The table lists each process with a timer exactly once and nothing
   * else, and nextTime bounds their due times.
   */
  predicate TimersOk(k: Kernel)
    requires Wf(k)
  {
    && Timed(k, k.timeouts) && NoDup(k.timeouts)
    && (forall p: Pid :: k.procs[p].timeout.Some? ==> p in k.timeouts)
    && NextTimeBound(k)
  }

  /** Overwriting entry i of a duplicate-free table with the last entry and dropping the last keeps it duplicate-free and removes s[i]. */
  lemma SwapRemoveNoDup(s: seq<Pid>, i: nat)
    requires i < |s|
    ensures var t := s[i := s[|s| - 1]][..|s| - 1];
      NoDup(s) ==> NoDup(t) && s[i] !in t
  {
    var n := |s| - 1;
    var t := s[i := s[n]][..n];
    assert forall j :: 0 <= j < |t| ==> t[j] == if j == i then s[n] else s[j];
  }

  /** set_timeout keeps the timer invariant. */
  lemma SetTimeoutKeepsTimers(k: Kernel, ms: int)
    requires Wf(k) && k.current.Some? && TimersOk(k) && SetTimeout(k, ms).Ok?
    ensures TimersOk(SetTimeout(k, ms).value)
  {
    var r := SetTimeout(k, ms).value;
    var p := k.current.value;
    assert p !in k.timeouts;
    assert forall x :: x in r.timeouts ==> x in k.timeouts || x == p;
  }

  /** cancel_timeout keeps the timer invariant. */
  lemma CancelTimeoutKeepsTimers(k: Kernel, p: Pid)
    requires Wf(k) && TimersOk(k) && CancelTimeout(k, p).Ok?
    ensures TimersOk(CancelTimeout(k, p).value)
  {
    var r := CancelTimeout(k, p).value;
    forall x: Pid | r.procs[x].timeout.Some?
      ensures x in r.timeouts
    {
      assert x != p && x in k.timeouts;
      assert multiset(k.timeouts)[x] > 0;
    }
  }

  /** mini_tick keeps the timer invariant, and under it never fails. */
  lemma MiniTickKeepsTimers(k: Kernel, ms: int)
    requires Wf(k) && TimersOk(k)
    ensures MiniTick(k, ms).Ok? && TimersOk(MiniTick(k, ms).value)
  {
    if k.nextTime.Some? && k.ticks > k.nextTime.value {
      MiniTickScans(k, ms);
      var r := MiniTick(k, ms).value;
      forall x: Pid | r.procs[x].timeout.Some?
        ensures x in r.timeouts
      {
        assert k.procs[x].timeout.Some?;
      }
    }
  }

  /**
   * What a tick of ms milliseconds means for each set timer: it fires
   * exactly when its due time had already passed before the tick, and
   * otherwise what remains of it shrinks by exactly ms.
   */
  lemma TickMeaning(k: Kernel, ms: int, p: Pid)
    requires Wf(k) && TimersOk(k) && k.procs[p].timeout.Some?
    ensures MiniTick(k, ms).Ok?
    ensures var r := MiniTick(k, ms).value;
      && (r.procs[p].timeout.None? <==> Remaining(k, p) < 0)
      && (r.procs[p].timeout.Some? ==> Remaining(r, p) == Remaining(k, p) - ms)
  {
    MiniTickKeepsTimers(k, ms);
    assert p in k.timeouts;
    if k.nextTime.Some? && k.ticks > k.nextTime.value {
      MiniTickScans(k, ms);
    }
  }
}
