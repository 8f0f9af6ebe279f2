/**
 * The scored build of make_ready.  With scheduling optimisation on, each
 * ready queue is kept in order of increasing score, a process's average
 * running time per call, so that choose_proc runs the lightest process of
 * the most urgent priority.  The score of each process is a parameter
 * here: the kernel's own score divides by a call count that nothing
 * maintains.
 */
module Sched {
  import opened Options
  import opened Proc
  import opened Kernel
  import opened Invariant

  /** The score of every process. */
  type Scores = Pid -> nat

  /** q runs in order of non-decreasing score. */
  predicate SortedBy(q: seq<Pid>, score: Scores)
  {
    forall i, j :: 0 <= i < j < |q| ==> score(q[i]) <= score(q[j])
  }

  /** The walk down the queue from position j: the first process whose score is at least s, or |q| when there is none. */
  function FirstNotBelow(q: seq<Pid>, s: nat, score: Scores, j: nat): (i: nat)
    requires j <= |q|
    ensures j <= i <= |q|
    ensures forall m :: j <= m < i ==> score(q[m]) < s
    ensures i < |q| ==> score(q[i]) >= s
    decreases |q| - j
  {
    if j == |q| || score(q[j]) >= s then j else FirstNotBelow(q, s, score, j + 1)
  }

  /**
   * The position make_ready gives p in q: the tail when q is empty or p
   * scores at least as much as the tail, and otherwise just in front of
   * the first process that scores at least as much as p.
   */
  function ScoredSlot(q: seq<Pid>, p: Pid, score: Scores): (i: nat)
    ensures i <= |q|
    ensures i == |q| <==> q == [] || score(p) >= score(q[|q| - 1])
    ensures i < |q| ==> score(p) <= score(q[i]) && forall m :: 0 <= m < i ==> score(q[m]) < score(p)
  {
    if q == [] || score(p) >= score(q[|q| - 1]) then |q|
    else FirstNotBelow(q, score(p), score, 0)
  }

  /** q with p inserted at position i. */
  function InsertAt(q: seq<Pid>, i: nat, p: Pid): (r: seq<Pid>)
    requires i <= |q|
    ensures |r| == |q| + 1 && r[i] == p && r[..i] == q[..i] && r[i + 1..] == q[i..]
    ensures multiset(r) == multiset(q) + multiset{p}
  {
    assert q == q[..i] + q[i..];
    q[..i] + [p] + q[i..]
  }

  /**
   * Score-ordered insertion: p joins q at its scored slot, so the queue
   * gains exactly p, and a queue sorted by score stays sorted.
   */
  function ScoredInsert(q: seq<Pid>, p: Pid, score: Scores): (r: seq<Pid>)
    ensures |r| == |q| + 1 && multiset(r) == multiset(q) + multiset{p}
    ensures SortedBy(q, score) ==> SortedBy(r, score)
  {
    var i := ScoredSlot(q, p, score);
    InsertSorted(q, i, p, score);
    InsertAt(q, i, p)
  }

  /** Inserting p between neighbours it fits between keeps a queue sorted. */
  lemma InsertSorted(q: seq<Pid>, i: nat, p: Pid, score: Scores)
    requires i <= |q|
    requires i > 0 ==> score(q[i - 1]) <= score(p)
    requires i < |q| ==> score(p) <= score(q[i])
    ensures SortedBy(q, score) ==> SortedBy(InsertAt(q, i, p), score)
  {
    if !SortedBy(q, score) {
      return;
    }
    forall a, b | 0 <= a < b < |q| + 1
      ensures score(InsertAt(q, i, p)[a]) <= score(InsertAt(q, i, p)[b])
    {
      InsertPair(q, i, p, score, a, b);
    }
  }

  /** One pair of positions of the insertion, in order. */
  lemma InsertPair(q: seq<Pid>, i: nat, p: Pid, score: Scores, a: nat, b: nat)
    requires SortedBy(q, score) && i <= |q| && a < b <= |q|
    requires i > 0 ==> score(q[i - 1]) <= score(p)
    requires i < |q| ==> score(p) <= score(q[i])
    ensures score(InsertAt(q, i, p)[a]) <= score(InsertAt(q, i, p)[b])
  {
    InsertAtIndex(q, i, p, a);
    InsertAtIndex(q, i, p, b);
    if a < i && b == i {
      assert score(q[a]) <= score(q[i - 1]);
    } else if a == i && b > i {
      assert score(q[i]) <= score(q[b - 1]);
    } else if a != i && b != i {
      var a', b' := if a < i then a else a - 1, if b < i then b else b - 1;
      assert score(q[a']) <= score(q[b']);
    }
  }

  /** Where each process of q ends up after the insertion. */
  lemma InsertAtIndex(q: seq<Pid>, i: nat, p: Pid, m: nat)
    requires i <= |q| && m <= |q|
    ensures InsertAt(q, i, p)[m] == if m < i then q[m] else if m == i then p else q[m - 1]
  {
    var r := InsertAt(q, i, p);
    if m < i {
      assert r[m] == r[..i][m];
    } else if m > i {
      assert r[m] == r[i + 1..][m - i - 1];
    }
  }

  /**
   * The insertion is the one the walk describes: p lands at its scored
   * slot, every process ahead of it is kept in order, and so is every
   * process behind it.
   */
  lemma ScoredInsertPlaces(q: seq<Pid>, p: Pid, score: Scores)
    ensures var i := ScoredSlot(q, p, score); var r := ScoredInsert(q, p, score);
      && r[i] == p && r[..i] == q[..i] && r[i + 1..] == q[i..]
  {
  }

  /**
   * Ties: a process that scores at least as much as the tail joins
   * behind it, as in the FIFO build, but one that scores less than the
   * tail overtakes every queued process of equal score.
   */
  lemma ScoredTies(q: seq<Pid>, p: Pid, score: Scores)
    requires q != []
    ensures score(p) >= score(q[|q| - 1]) ==> ScoredInsert(q, p, score) == q + [p]
    ensures score(p) < score(q[|q| - 1]) ==>
      forall m :: 0 <= m < ScoredSlot(q, p, score) ==> score(q[m]) != score(p)
  {
    var i := ScoredSlot(q, p, score);
    if score(p) >= score(q[|q| - 1]) {
      assert q[..i] == q && q[i..] == [];
    }
  }

  // ---------------------------------------------------------------------
  // The scored make_ready on the kernel

  /**
   * make_ready(p), scored build: the idle process is never queued; any
   * other process becomes ACTIVE and joins the queue for its priority at
   * its scored slot, so Ready gains exactly p, as in the FIFO build.
   */
  function MakeReadyScored(k: Kernel, p: Pid, score: Scores): (r: Kernel)
    requires Wf(k)
    ensures Wf(r) && r == k.(procs := r.procs, readyq := r.readyq)
    ensures r.procs == k.procs[p := k.procs[p].(state := ReadiedState(k, p))]
    ensures Ready(r) == Ready(k) + Readied(k, p) && Waiting(r) == Waiting(k)
    ensures k.procs[p].priority == P_IDLE ==> r == k
    ensures k.procs[p].priority != P_IDLE ==>
      r.readyq == k.readyq[k.procs[p].priority := ScoredInsert(k.readyq[k.procs[p].priority], p, score)]
  {
    var d := k.procs[p];
    if d.priority == P_IDLE then
      assert k.procs[p := d] == k.procs;
      k
    else
      var k1 := SetProc(k, p, d.(state := Active));
      var q := k1.readyq[d.priority];
      var r := SetQueue(k1, d.priority, ScoredInsert(q, p, score));
      BagGain(Ready(r), Ready(k1), q, ScoredInsert(q, p, score), p);
      r
  }

  /** A queue that gains exactly p adds exactly p to the bag it is part of. */
  lemma BagGain(x: multiset<Pid>, y: multiset<Pid>, a: seq<Pid>, b: seq<Pid>, p: Pid)
    requires multiset(b) == multiset(a) + multiset{p}
    ensures x + multiset(a) == y + multiset(b) ==> x == y + multiset{p}
  {
    if x + multiset(a) == y + multiset(b) {
      forall e ensures x[e] == (y + multiset{p})[e] {
        assert (x + multiset(a))[e] == (y + multiset(b))[e];
      }
    }
  }

  /**
   * The two builds differ only in where p sits in its queue: the kernels
   * agree apart from that queue, which holds the same processes.
   */
  lemma ScoredMatchesFifo(k: Kernel, p: Pid, score: Scores)
    requires Wf(k)
    ensures var s := MakeReadyScored(k, p, score); var f := MakeReady(k, p);
      && s.(readyq := f.readyq) == f
      && forall q :: 0 <= q < NPRIO ==> multiset(s.readyq[q]) == multiset(f.readyq[q])
  {
  }

  /** Every ready queue runs in order of non-decreasing score. */
  predicate QueuesSorted(k: Kernel, score: Scores)
  {
    Wf(k) && forall q :: 0 <= q < NPRIO ==> SortedBy(k.readyq[q], score)
  }

  /** The scored make_ready keeps every ready queue sorted. */
  lemma ScoredKeepsSorted(k: Kernel, p: Pid, score: Scores)
    requires QueuesSorted(k, score)
    ensures QueuesSorted(MakeReadyScored(k, p, score), score)
  {
    var r := MakeReadyScored(k, p, score);
    forall q | 0 <= q < NPRIO
      ensures SortedBy(r.readyq[q], score)
    {
      assert SortedBy(k.readyq[q], score);
    }
  }

  /**
   * With sorted queues, choose_proc keeps them sorted and runs a process
   * of least score on the first non-empty ready queue.
   */
  lemma ChooseRunsLightest(k: Kernel, score: Scores)
    requires QueuesSorted(k, score)
    ensures QueuesSorted(ChooseProc(k), score)
    ensures var f := FirstNonEmpty(k.readyq, 0);
      f.Some? ==> forall x :: x in k.readyq[f.value] ==> score(ChooseProc(k).current.value) <= score(x)
  {
    var r := ChooseProc(k);
    var f := FirstNonEmpty(k.readyq, 0);
    if f.Some? {
      var q := k.readyq[f.value];
      assert SortedBy(q, score);
      forall x | x in q
        ensures score(q[0]) <= score(x)
      {
        var m :| 0 <= m < |q| && q[m] == x;
        assert m == 0 || score(q[0]) <= score(q[m]);
      }
      forall j | 0 <= j < NPRIO
        ensures SortedBy(r.readyq[j], score)
      {
        assert SortedBy(k.readyq[j], score);
        if j == f.value {
          forall a, b | 0 <= a < b < |q| - 1
            ensures score(q[1..][a]) <= score(q[1..][b])
          {
            assert score(q[a + 1]) <= score(q[b + 1]);
          }
        }
      }
    }
  }

  /**
   * Under the kernel invariant with sorted queues, choose_proc runs a
   * process that no ACTIVE process beats: every other ACTIVE process has
   * a less urgent priority, or the same one and a score no smaller.
   */
  lemma ChooseRunsUrgentLightest(k: Kernel, score: Scores)
    requires PreChoose(k) && QueuesSorted(k, score)
    ensures var c := ChooseProc(k).current.value;
      forall x: Pid :: k.procs[x].state == Active ==>
        || k.procs[c].priority < k.procs[x].priority
        || (k.procs[c].priority == k.procs[x].priority && score(c) <= score(x))
  {
    var c := ChooseProc(k).current.value;
    var f := FirstNonEmpty(k.readyq, 0);
    ChooseRunsMostUrgent(k);
    ChooseRunsLightest(k, score);
    forall x: Pid | k.procs[x].state == Active && k.procs[c].priority == k.procs[x].priority
      ensures score(c) <= score(x)
    {
      assert PidOk(k, x, {});
      ReadyBagIn(k.readyq, x);
      var q :| 0 <= q < NPRIO && x in k.readyq[q];
      assert f.Some? && k.procs[c].priority == f.value;
    }
  }

  /** The scored make_ready keeps the kernel invariant exactly as the FIFO one does. */
  lemma ScoredMakeReadyKeeps(k: Kernel, off: set<Pid>, p: Pid, score: Scores)
    requires Core(k, off) && p in off && k.procs[p].priority != P_IDLE && k.procs[p].timeout.None?
    ensures Core(MakeReadyScored(k, p, score), off - {p})
  {
    var r := MakeReadyScored(k, p, score);
    TimersSame(k, r);
    ScoredPlaced(k, p, score);
    assert PidOk(k, p, off);
    forall x: Pid ensures PidOk(r, x, off - {p}) {
      assert PidOk(k, x, off);
      ScoredPidOk(k, off, p, score, x);
    }
  }

  /** ScoredMakeReadyKeeps for one process. */
  lemma ScoredPidOk(k: Kernel, off: set<Pid>, p: Pid, score: Scores, x: Pid)
    requires Wf(k) && PidOk(k, x, off) && PidOk(k, p, off) && p in off
    requires k.procs[p].priority != P_IDLE && k.procs[p].timeout.None?
    ensures PidOk(MakeReadyScored(k, p, score), x, off - {p})
  {
    var r := MakeReadyScored(k, p, score);
    assert Ready(r)[x] == Ready(k)[x] + multiset{p}[x] && Waiting(r)[x] == Waiting(k)[x];
    if x == p {
      assert r.procs[x] == k.procs[x].(state := Active);
    } else {
      assert r.procs[x] == k.procs[x];
    }
  }

  /** The scored make_ready puts p on the queue of its own priority, as the FIFO one does. */
  lemma ScoredPlaced(k: Kernel, p: Pid, score: Scores)
    requires Wf(k) && Placed(k)
    ensures Placed(MakeReadyScored(k, p, score))
  {
    var r := MakeReadyScored(k, p, score);
    var prio := k.procs[p].priority;
    if prio != P_IDLE {
      var q := k.readyq[prio];
      var q' := ScoredInsert(q, p, score);
      forall x | x in q'
        ensures x == p || x in q
      {
        assert multiset(q')[x] > 0;
      }
      PlacedJoin(k, r, p, q');
    }
  }
}
