/** The multi-level feedback queue scheduler (kernel/proc.c, kernel/trap.c) on one CPU.
    There are no queues in the kernel: a process has a queue number and an arrival stamp,
    and the scheduler scans the process table for the smallest pair. */
module Mlfq {
  const NPROC: nat := 64
  const BOOST: nat := 48

  datatype PState = UNUSED | USED | SLEEPING | RUNNABLE | RUNNING | ZOMBIE
  datatype Proc = Proc(state: PState, pid: int, chan: int, killed: bool, queue: int, stamp: nat, used: int)

  /** The process table, the stamp counter mlfq_seq, the tick counter, the slot running on the
      CPU (-1 when the scheduler loop is), and the next process id. */
  datatype Sched = Sched(procs: seq<Proc>, seqno: nat, ticks: nat, cpu: int, nextpid: int)

  function Slice(queue: int): int {
    if queue == 0 then 1 else if queue == 1 then 4 else if queue == 2 then 8 else 16
  }

  // ----- the operations, on values ----------------------------------------------------

  /** Become RUNNABLE at the tail of one's queue: yield, wakeup, kkill, kfork, userinit. */
  function MakeReady(s: Sched, p: nat): Sched
    requires p < |s.procs|
  {
    s.(procs := s.procs[p := s.procs[p].(state := RUNNABLE, stamp := s.seqno)], seqno := s.seqno + 1)
  }

  predicate Better(a: Proc, b: Proc) {
    a.queue < b.queue || (a.queue == b.queue && a.stamp < b.stamp)
  }

  /** The scheduler's choice. */
  predicate IsBest(s: Sched, p: nat) {
    && p < |s.procs| && s.procs[p].state == RUNNABLE
    && forall q :: 0 <= q < |s.procs| && s.procs[q].state == RUNNABLE ==> !Better(s.procs[q], s.procs[p])
  }

  function Dispatch(s: Sched, p: nat): Sched
    requires p < |s.procs|
  {
    s.(procs := s.procs[p := s.procs[p].(state := RUNNING)], cpu := p)
  }

  function Lower(q: int): int { if q < 3 then q + 1 else q }

  predicate HigherWaiting(s: Sched, p: nat)
    requires p < |s.procs|
  {
    exists q :: 0 <= q < |s.procs| && q != p && s.procs[q].state == RUNNABLE && s.procs[q].queue < s.procs[p].queue
  }

  /** mlfq_tick for the process on the CPU. */
  function Charge(s: Sched): Sched
    requires 0 <= s.cpu < |s.procs|
  {
    var p := s.cpu;
    var used := s.procs[p].used + 1;
    if used >= Slice(s.procs[p].queue) then
      var t := s.(procs := s.procs[p := s.procs[p].(queue := Lower(s.procs[p].queue), used := 0)]);
      MakeReady(t, p).(cpu := -1)
    else
      var t := s.(procs := s.procs[p := s.procs[p].(used := used)]);
      if HigherWaiting(t, p) then MakeReady(t, p).(cpu := -1) else t
  }

  function Boosted(p: Proc): Proc {
    if p.state == UNUSED then p else p.(queue := 0, used := 0)
  }

  /** mlfq_boost: stamps are left alone. */
  function Boost(s: Sched): Sched {
    s.(procs := seq(|s.procs|, i requires 0 <= i < |s.procs| => Boosted(s.procs[i])))
  }

  predicate BoostDue(ticks: nat) { ticks % BOOST == 0 }

  /** The rest of clockintr, after the sleepers on &ticks have been woken. */
  function Clock(s: Sched): Sched {
    var t := s.(ticks := s.ticks + 1);
    if BoostDue(t.ticks) then Boost(t) else t
  }

  function GoToSleep(s: Sched, chan: int): Sched
    requires 0 <= s.cpu < |s.procs|
  {
    s.(procs := s.procs[s.cpu := s.procs[s.cpu].(state := SLEEPING, chan := chan, used := 0)], cpu := -1)
  }

  function SetState(s: Sched, p: nat, st: PState): Sched
    requires p < |s.procs|
  {
    s.(procs := s.procs[p := s.procs[p].(state := st)])
  }

  function SetKilled(s: Sched, p: nat): Sched
    requires p < |s.procs|
  {
    s.(procs := s.procs[p := s.procs[p].(killed := true)])
  }

  /** allocproc and freeproc, as far as the scheduler sees them. */
  function Allocate(s: Sched, p: nat): Sched
    requires p < |s.procs|
  {
    s.(procs := s.procs[p := s.procs[p].(state := USED, pid := s.nextpid, queue := 0, used := 0)],
       nextpid := s.nextpid + 1)
  }

  function Free(s: Sched, p: nat): Sched
    requires p < |s.procs|
  {
    s.(procs := s.procs[p := Proc(UNUSED, 0, 0, false, 0, 0, 0)])
  }

  // ----- runs ------------------------------------------------------------------------------

  datatype Step =
    | Run(p: nat)                   // the scheduler switches to p
    | Tick(charge: bool)            // timer interrupt; a killed process exits without being charged
    | Wake(p: nat)                  // wakeup or kkill reaches a sleeper
    | Kill(p: nat, pid: int)        // kkill finds pid in slot p and sets the flag
    | KillSelf                      // setkilled, on the running process
    | Sleep(chan: int)
    | Exit
    | Alloc(p: nat)
    | Start(p: nat)                 // kfork, userinit
    | Release(p: nat)               // freeproc

  predicate Enabled(s: Sched, step: Step) {
    match step
    case Run(p) => s.cpu == -1 && IsBest(s, p)
    case Tick(charge) => charge || (0 <= s.cpu < |s.procs| ==> s.procs[s.cpu].killed)
    case Wake(p) => p < |s.procs| && s.procs[p].state == SLEEPING
    case Kill(p, pid) => p < |s.procs| && s.procs[p].pid == pid
    case KillSelf => 0 <= s.cpu < |s.procs|
    case Sleep(_) => 0 <= s.cpu < |s.procs|
    case Exit => 0 <= s.cpu < |s.procs|
    case Alloc(p) => p < |s.procs| && s.procs[p].state == UNUSED
    case Start(p) => p < |s.procs| && s.procs[p].state == USED
    case Release(p) => p < |s.procs| && (s.procs[p].state == USED || s.procs[p].state == ZOMBIE)
  }

  /** A tick is charged when it interrupts a process that goes on to mlfq_tick. */
  predicate Charges(s: Sched, step: Step) {
    step == Tick(true) && 0 <= s.cpu < |s.procs|
  }

  function Do(s: Sched, step: Step): Sched
    requires Enabled(s, step)
  {
    match step
    case Run(p) => Dispatch(s, p)
    case Tick(_) => if Charges(s, step) then Charge(Clock(s)) else Clock(s)
    case Wake(p) => MakeReady(s, p)
    case Kill(p, _) => SetKilled(s, p)
    case KillSelf => SetKilled(s, s.cpu)
    case Sleep(chan) => GoToSleep(s, chan)
    case Exit => SetState(s, s.cpu, ZOMBIE).(cpu := -1)
    case Alloc(p) => Allocate(s, p)
    case Start(p) => MakeReady(s, p)
    case Release(p) => Free(s, p)
  }

  predicate ProcOk(p: Proc) { 0 <= p.queue <= 3 && 0 <= p.used < Slice(p.queue) }

  /** Queue numbers and slices stay in range, waiting processes have distinct stamps older
      than the counter, and the CPU runs the RUNNING process. */
  ghost predicate QueueInv(s: Sched) {
    && |s.procs| == NPROC
    && (forall p :: 0 <= p < NPROC ==> ProcOk(s.procs[p]))
    && (forall p :: 0 <= p < NPROC && s.procs[p].state == RUNNABLE ==> s.procs[p].stamp < s.seqno)
    && (forall p, q :: 0 <= p < q < NPROC && s.procs[p].state == RUNNABLE && s.procs[q].state == RUNNABLE
          ==> s.procs[p].stamp != s.procs[q].stamp)
    && -1 <= s.cpu < NPROC
    && (forall p :: 0 <= p < NPROC ==> (s.procs[p].state == RUNNING <==> p == s.cpu))
  }

  /** Process ids are positive and not reused; a free slot, and no other, has pid 0. */
  ghost predicate PidsOk(s: Sched) {
    && 1 <= s.nextpid
    && (forall p :: 0 <= p < |s.procs| ==> 0 <= s.procs[p].pid < s.nextpid)
    && (forall p :: 0 <= p < |s.procs| ==> (s.procs[p].state == UNUSED <==> s.procs[p].pid == 0))
    && (forall p, q :: 0 <= p < q < |s.procs| && s.procs[p].pid == s.procs[q].pid ==> s.procs[p].pid == 0)
  }

  ghost predicate Inv(s: Sched) { QueueInv(s) && PidsOk(s) }

  /** Steps that neither take nor release a slot leave the ids alone. */
  lemma PidsKept(s: Sched, t: Sched)
    requires PidsOk(s) && |t.procs| == |s.procs| && t.nextpid == s.nextpid
    requires forall p :: 0 <= p < |s.procs| ==>
      t.procs[p].pid == s.procs[p].pid && (t.procs[p].state == UNUSED <==> s.procs[p].state == UNUSED)
    ensures PidsOk(t)
  {
  }

  lemma ClockKeepsInv(s: Sched)
    requires Inv(s)
    ensures Inv(Clock(s))
  {
    hide PidsOk;
    PidsKept(s, Clock(s));
  }

  lemma ChargeKeepsInv(s: Sched)
    requires Inv(s) && 0 <= s.cpu
    ensures Inv(Charge(s))
  {
    hide PidsOk;
    assert s.procs[s.cpu].state == RUNNING && ProcOk(s.procs[s.cpu]);
    PidsKept(s, Charge(s));
  }

  lemma ReadyKeepsInv(s: Sched, p: nat)
    requires Inv(s) && p < NPROC && p != s.cpu && s.procs[p].state != UNUSED
    ensures Inv(MakeReady(s, p))
  {
    hide PidsOk;
    PidsKept(s, MakeReady(s, p));
  }

  lemma SlotKeepsInv(s: Sched, step: Step)
    requires Inv(s) && Enabled(s, step) && (step.Alloc? || step.Release?)
    ensures Inv(Do(s, step))
  {
    hide QueueInv;
    assert QueueInv(Do(s, step)) by { SlotKeepsQueues(s, step); }
  }

  lemma SlotKeepsQueues(s: Sched, step: Step)
    requires QueueInv(s) && Enabled(s, step) && (step.Alloc? || step.Release?)
    ensures QueueInv(Do(s, step))
  {
  }

  lemma StepKeepsInv(s: Sched, step: Step)
    requires Inv(s) && Enabled(s, step)
    ensures Inv(Do(s, step))
  {
    hide PidsOk;
    match step {
      case Tick(_) =>
        ClockKeepsInv(s);
        if Charges(s, step) { ChargeKeepsInv(Clock(s)); }
      case Wake(p) => ReadyKeepsInv(s, p);
      case Start(p) => ReadyKeepsInv(s, p);
      case Alloc(p) => SlotKeepsInv(s, step);
      case Release(p) => SlotKeepsInv(s, step);
      case _ => PidsKept(s, Do(s, step));
    }
  }

  ghost predicate Next(s: Sched, step: Step, t: Sched) { Enabled(s, step) && Do(s, step) == t }

  /** A run: the states it goes through. */
  ghost predicate IsRun(ss: seq<Sched>, steps: seq<Step>) {
    && |ss| == |steps| + 1
    && Inv(ss[0])
    && forall k :: 0 <= k < |steps| ==> Next(ss[k], steps[k], ss[k + 1])
  }

  lemma {:induction false} RunInv(ss: seq<Sched>, steps: seq<Step>, n: nat)
    requires IsRun(ss, steps) && n < |ss|
    ensures Inv(ss[n])
  {
    if n > 0 {
      RunInv(ss, steps, n - 1);
      assert Next(ss[n - 1], steps[n - 1], ss[n]);
      StepKeepsInv(ss[n - 1], steps[n - 1]);
    }
  }

  // ----- the four FIFO queues --------------------------------------------------------------------

  predicate Waiting(s: Sched, p: nat) { p < |s.procs| && s.procs[p].state == RUNNABLE }

  predicate Sorted(s: Sched, q: seq<nat>) {
    && (forall j :: 0 <= j < |q| ==> q[j] < |s.procs|)
    && forall i, j :: 0 <= i < j < |q| ==> s.procs[q[i]].stamp < s.procs[q[j]].stamp
  }

  /** q lists the waiting processes of queue k, oldest stamp first. */
  ghost predicate Queue(s: Sched, k: int, q: seq<nat>) {
    Sorted(s, q) && forall p: nat :: p in q <==> Waiting(s, p) && s.procs[p].queue == k
  }

  ghost predicate Queues(s: Sched, qs: seq<seq<nat>>) {
    |qs| == 4 && forall k :: 0 <= k < 4 ==> Queue(s, k, qs[k])
  }

  /** A table is read as queues in one way only. */
  lemma {:induction false} SortedSame(s: Sched, a: seq<nat>, b: seq<nat>)
    requires Sorted(s, a) && Sorted(s, b) && forall p: nat :: p in a <==> p in b
    ensures a == b
  {
    if a == [] {
      assert forall j :: 0 <= j < |b| ==> b[j] in b;
    } else {
      assert a[0] in b;
      assert b[0] in a;
      assert a[0] == b[0];
      forall p: nat ensures p in a[1..] <==> p in b[1..] {
        assert p in a <==> p in b;
        assert a[0] !in a[1..] && b[0] !in b[1..];
        assert a == [a[0]] + a[1..] && b == [b[0]] + b[1..];
      }
      SortedSame(s, a[1..], b[1..]);
      assert a == [a[0]] + a[1..] && b == [b[0]] + b[1..];
    }
  }

  lemma QueuesUnique(s: Sched, a: seq<seq<nat>>, b: seq<seq<nat>>)
    requires Queues(s, a) && Queues(s, b)
    ensures a == b
  {
    forall k | 0 <= k < 4 ensures a[k] == b[k] {
      assert Queue(s, k, a[k]) && Queue(s, k, b[k]);
      SortedSame(s, a[k], b[k]);
    }
  }

  /** First non-empty queue, 4 if none. */
  function First(qs: seq<seq<nat>>): (k: nat)
    requires |qs| == 4
    ensures k <= 4 && (k < 4 ==> qs[k] != []) && forall j :: 0 <= j < k ==> qs[j] == []
  {
    if qs[0] != [] then 0 else if qs[1] != [] then 1 else if qs[2] != [] then 2 else if qs[3] != [] then 3 else 4
  }

  /** The scheduler's scan picks exactly the head of the first non-empty queue. */
  lemma BestIsHead(s: Sched, qs: seq<seq<nat>>, p: nat)
    requires Inv(s) && Queues(s, qs)
    ensures IsBest(s, p) <==> First(qs) < 4 && qs[First(qs)][0] == p
  {
    var k := First(qs);
    if k < 4 {
      HeadIsBest(s, qs, qs[k][0]);
    }
    if Waiting(s, p) {
      assert Queue(s, s.procs[p].queue, qs[s.procs[p].queue]) && p in qs[s.procs[p].queue];
      if IsBest(s, p) {
        assert !Better(s.procs[qs[k][0]], s.procs[p]) && !Better(s.procs[p], s.procs[qs[k][0]]);
      }
    }
  }

  lemma HeadIsBest(s: Sched, qs: seq<seq<nat>>, h: nat)
    requires Inv(s) && Queues(s, qs) && First(qs) < 4 && h == qs[First(qs)][0]
    ensures IsBest(s, h)
  {
    var k := First(qs);
    assert Queue(s, k, qs[k]) && h in qs[k];
    forall q: nat | Waiting(s, q) ensures !Better(s.procs[q], s.procs[h]) {
      assert Queue(s, s.procs[q].queue, qs[s.procs[q].queue]);
      assert q in qs[s.procs[q].queue];
    }
  }

  lemma PopHead(s: Sched, k: int, q: seq<nat>)
    requires Queue(s, k, q) && q != []
    ensures Queue(Dispatch(s, q[0]), k, q[1..])
  {
    assert q == [q[0]] + q[1..] && q[0] !in q[1..];
  }

  lemma PopElsewhere(s: Sched, k: int, q: seq<nat>, p: nat)
    requires Queue(s, k, q) && p < |s.procs| && s.procs[p].queue != k
    ensures Queue(Dispatch(s, p), k, q)
  {
    assert p !in q;
  }

  /** Switching to the chosen process takes the head off its queue. */
  lemma DispatchPops(s: Sched, qs: seq<seq<nat>>, p: nat)
    requires Inv(s) && Queues(s, qs) && IsBest(s, p)
    ensures First(qs) < 4 && Queues(Dispatch(s, p), qs[First(qs) := qs[First(qs)][1..]])
  {
    BestIsHead(s, qs, p);
    var k := First(qs);
    assert Queue(s, k, qs[k]) && p in qs[k];
    var qs' := qs[k := qs[k][1..]];
    forall j | 0 <= j < 4 ensures Queue(Dispatch(s, p), j, qs'[j]) {
      assert Queue(s, j, qs[j]);
      if j == k { PopHead(s, k, qs[k]); } else { PopElsewhere(s, j, qs[j], p); }
    }
  }

  /** Becoming ready appends at the tail. */
  lemma ReadyAppends(s: Sched, qs: seq<seq<nat>>, p: nat)
    requires Queues(s, qs) && p < |s.procs| && !Waiting(s, p) && 0 <= s.procs[p].queue < 4
    requires forall q: nat :: Waiting(s, q) ==> s.procs[q].stamp < s.seqno
    ensures var k := s.procs[p].queue; Queues(MakeReady(s, p), qs[k := qs[k] + [p]])
  {
    var k := s.procs[p].queue;
    var qs' := qs[k := qs[k] + [p]];
    forall j | 0 <= j < 4 ensures Queue(MakeReady(s, p), j, qs'[j]) {
      assert Queue(s, j, qs[j]);
      if j == k { PushTail(s, k, qs[k], p); } else { PushElsewhere(s, j, qs[j], p); }
    }
  }

  lemma PushTail(s: Sched, k: int, q: seq<nat>, p: nat)
    requires Queue(s, k, q) && p < |s.procs| && !Waiting(s, p) && s.procs[p].queue == k
    requires forall q: nat :: Waiting(s, q) ==> s.procs[q].stamp < s.seqno
    ensures Queue(MakeReady(s, p), k, q + [p])
  {
    assert p !in q;
    assert forall i :: 0 <= i < |q| ==> q[i] in q && Waiting(s, q[i]);
  }

  lemma PushElsewhere(s: Sched, k: int, q: seq<nat>, p: nat)
    requires Queue(s, k, q) && p < |s.procs| && !Waiting(s, p) && s.procs[p].queue != k
    ensures Queue(MakeReady(s, p), k, q)
  {
    assert p !in q;
  }

  /** Changing a process that is not waiting, or only the clock, leaves the queues alone. */
  lemma SameQueues(s: Sched, t: Sched, qs: seq<seq<nat>>)
    requires Queues(s, qs) && |t.procs| == |s.procs|
    requires forall p: nat :: p < |s.procs| ==> (Waiting(s, p) <==> Waiting(t, p))
    requires forall p: nat :: Waiting(s, p) ==> s.procs[p].queue == t.procs[p].queue && s.procs[p].stamp == t.procs[p].stamp
    ensures Queues(t, qs)
  {
    forall k | 0 <= k < 4 ensures Queue(t, k, qs[k]) {
      assert Queue(s, k, qs[k]);
      assert forall j :: 0 <= j < |qs[k]| ==> qs[k][j] in qs[k] && Waiting(s, qs[k][j]);
    }
  }

  /** Stamp-ordered merge. */
  function Merge(s: Sched, a: seq<nat>, b: seq<nat>): seq<nat>
    requires Sorted(s, a) && Sorted(s, b)
    decreases |a| + |b|
  {
    if a == [] then b
    else if b == [] then a
    else if s.procs[a[0]].stamp < s.procs[b[0]].stamp then [a[0]] + Merge(s, a[1..], b)
    else [b[0]] + Merge(s, a, b[1..])
  }

  predicate Apart(s: Sched, a: seq<nat>, b: seq<nat>)
    requires Sorted(s, a) && Sorted(s, b)
  {
    forall i, j :: 0 <= i < |a| && 0 <= j < |b| ==> s.procs[a[i]].stamp != s.procs[b[j]].stamp
  }

  lemma {:induction false} MergeSorts(s: Sched, a: seq<nat>, b: seq<nat>)
    requires Sorted(s, a) && Sorted(s, b) && Apart(s, a, b)
    ensures Sorted(s, Merge(s, a, b))
    ensures forall p: nat :: p in Merge(s, a, b) <==> p in a || p in b
    decreases |a| + |b|
  {
    hide Sorted, Apart;
    if a == [] || b == [] { return; }
    Tails(s, a, b);
    if s.procs[a[0]].stamp < s.procs[b[0]].stamp {
      MergeSorts(s, a[1..], b);
      MergeHead(s, a, b, Merge(s, a[1..], b));
    } else {
      MergeSorts(s, a, b[1..]);
      MergeHead(s, b, a, Merge(s, a, b[1..]));
    }
  }

  lemma Tails(s: Sched, a: seq<nat>, b: seq<nat>)
    requires Sorted(s, a) && Sorted(s, b) && Apart(s, a, b) && a != [] && b != []
    ensures Sorted(s, a[1..]) && Sorted(s, b[1..]) && Apart(s, a[1..], b) && Apart(s, a, b[1..])
    ensures a[0] < |s.procs| && b[0] < |s.procs| && s.procs[a[0]].stamp != s.procs[b[0]].stamp
  {
  }

  /** The older of two heads goes in front of what the rest merges to. */
  lemma MergeHead(s: Sched, a: seq<nat>, b: seq<nat>, m: seq<nat>)
    requires Sorted(s, a) && Sorted(s, b) && Sorted(s, m) && a != [] && b != []
    requires s.procs[a[0]].stamp < s.procs[b[0]].stamp
    requires forall p: nat :: p in m <==> p in a[1..] || p in b
    ensures Sorted(s, [a[0]] + m)
    ensures forall p: nat :: p in [a[0]] + m <==> p in a || p in b
  {
    forall j | 0 <= j < |m| ensures s.procs[a[0]].stamp < s.procs[m[j]].stamp { assert m[j] in m; }
    hide Sorted;
    assert a == [a[0]] + a[1..];
  }

  // ----- every step on the queues --------------------------------------------------------------------

  lemma QueuesApart(s: Sched, i: int, j: int, a: seq<nat>, b: seq<nat>)
    requires Inv(s) && i != j && Queue(s, i, a) && Queue(s, j, b)
    ensures Apart(s, a, b)
  {
    forall x, y | 0 <= x < |a| && 0 <= y < |b| ensures s.procs[a[x]].stamp != s.procs[b[y]].stamp {
      assert a[x] in a && b[y] in b;
    }
  }

  /** The stamp-ordered merge of the four queues lists all waiting processes in stamp order. */
  lemma MergeOfAll(s: Sched, qs: seq<seq<nat>>)
    requires Inv(s) && Queues(s, qs)
    ensures (forall k :: 0 <= k < 4 ==> Sorted(s, qs[k]))
      && Sorted(s, Merge(s, qs[0], qs[1])) && Sorted(s, Merge(s, qs[2], qs[3]))
      && AllWaiting(s, Merge(s, Merge(s, qs[0], qs[1]), Merge(s, qs[2], qs[3])))
  {
    MergePair(s, qs, 0, 1);
    MergePair(s, qs, 2, 3);
    MergeHalves(s, qs, Merge(s, qs[0], qs[1]), Merge(s, qs[2], qs[3]));
  }

  lemma MergePair(s: Sched, qs: seq<seq<nat>>, i: int, j: int)
    requires Inv(s) && Queues(s, qs) && 0 <= i < j < 4
    ensures Sorted(s, qs[i]) && Sorted(s, qs[j]) && Sorted(s, Merge(s, qs[i], qs[j]))
    ensures forall p: nat :: p in Merge(s, qs[i], qs[j]) <==> p in qs[i] || p in qs[j]
  {
    assert Queue(s, i, qs[i]) && Queue(s, j, qs[j]);
    QueuesApart(s, i, j, qs[i], qs[j]);
    MergeSorts(s, qs[i], qs[j]);
  }

  lemma MergeHalves(s: Sched, qs: seq<seq<nat>>, a: seq<nat>, b: seq<nat>)
    requires Inv(s) && Queues(s, qs) && Sorted(s, a) && Sorted(s, b)
    requires forall p: nat :: p in a <==> p in qs[0] || p in qs[1]
    requires forall p: nat :: p in b <==> p in qs[2] || p in qs[3]
    ensures AllWaiting(s, Merge(s, a, b))
  {
    HalvesApart(s, qs, a, b);
    MergeSorts(s, a, b);
    assert Queue(s, 0, qs[0]) && Queue(s, 1, qs[1]) && Queue(s, 2, qs[2]) && Queue(s, 3, qs[3]);
  }

  ghost predicate AllWaiting(s: Sched, m: seq<nat>) {
    Sorted(s, m) && forall p: nat :: p in m <==> Waiting(s, p)
  }

  /** By SortedSame there is only one such list, the merge of the queues. */
  ghost function MergeAll(s: Sched, qs: seq<seq<nat>>): (m: seq<nat>)
    requires Inv(s) && Queues(s, qs)
    ensures AllWaiting(s, m)
  {
    MergeOfAll(s, qs);
    var m :| AllWaiting(s, m);
    m
  }

  lemma HalvesApart(s: Sched, qs: seq<seq<nat>>, a: seq<nat>, b: seq<nat>)
    requires Inv(s) && Queues(s, qs) && Sorted(s, a) && Sorted(s, b)
    requires forall p: nat :: p in a ==> p in qs[0] || p in qs[1]
    requires forall p: nat :: p in b ==> p in qs[2] || p in qs[3]
    ensures Apart(s, a, b)
  {
    forall x, y | 0 <= x < |a| && 0 <= y < |b| ensures s.procs[a[x]].stamp != s.procs[b[y]].stamp {
      assert a[x] in a && b[y] in b;
      assert Queue(s, 0, qs[0]) && Queue(s, 1, qs[1]) && Queue(s, 2, qs[2]) && Queue(s, 3, qs[3]);
    }
  }

  lemma BoostQueue(s: Sched, k: int, m: seq<nat>)
    requires |s.procs| == NPROC && 0 <= k < 4 && Sorted(s, m)
    requires forall p: nat :: p in m <==> k == 0 && Waiting(s, p)
    ensures Queue(Boost(s), k, m)
  {
    var t := Boost(s);
    assert |t.procs| == |s.procs| && forall p :: 0 <= p < NPROC ==> t.procs[p] == Boosted(s.procs[p]);
  }

  /** A boost merges everything, in stamp order, into queue 0. */
  lemma BoostMerges(s: Sched, m: seq<nat>)
    requires |s.procs| == NPROC && Sorted(s, m) && forall p: nat :: p in m <==> Waiting(s, p)
    ensures Queues(Boost(s), [m, [], [], []])
  {
    BoostQueue(s, 0, m);
    BoostQueue(s, 1, []);
    BoostQueue(s, 2, []);
    BoostQueue(s, 3, []);
  }

  /** The same step on the queues: no stamps, except that a boost merges in stamp order. */
  ghost function QClock(s: Sched, qs: seq<seq<nat>>): seq<seq<nat>>
    requires Inv(s) && Queues(s, qs)
  {
    if BoostDue(s.ticks + 1) then [MergeAll(s, qs), [], [], []] else qs
  }

  function Push(qs: seq<seq<nat>>, k: int, p: nat): seq<seq<nat>>
    requires 0 <= k < |qs|
  {
    qs[k := qs[k] + [p]]
  }

  /** mlfq_tick: on an expired slice to the tail of the next queue, else to the tail of its
      own queue if a higher queue is non-empty, else it keeps the CPU. */
  function QCharge(s: Sched, qs: seq<seq<nat>>): seq<seq<nat>>
    requires |qs| == 4 && 0 <= s.cpu < |s.procs| && ProcOk(s.procs[s.cpu])
  {
    var p := s.procs[s.cpu];
    if p.used + 1 >= Slice(p.queue) then Push(qs, Lower(p.queue), s.cpu)
    else if First(qs) < p.queue then Push(qs, p.queue, s.cpu)
    else qs
  }

  ghost function QDo(s: Sched, qs: seq<seq<nat>>, step: Step): seq<seq<nat>>
    requires Inv(s) && Queues(s, qs) && Enabled(s, step)
  {
    match step
    case Run(p) => DispatchPops(s, qs, p); qs[First(qs) := qs[First(qs)][1..]]
    case Tick(_) => ClockKeepsInv(s); if Charges(s, step) then QCharge(Clock(s), QClock(s, qs)) else QClock(s, qs)
    case Wake(p) => Push(qs, s.procs[p].queue, p)
    case Start(p) => Push(qs, s.procs[p].queue, p)
    case _ => qs
  }

  lemma ClockRefines(s: Sched, qs: seq<seq<nat>>)
    requires Inv(s) && Queues(s, qs)
    ensures Queues(Clock(s), QClock(s, qs))
  {
    if BoostDue(s.ticks + 1) {
      ClockMerges(s, MergeAll(s, qs));
    } else {
      ClockQuiet(s, qs);
    }
  }

  lemma ClockQuiet(s: Sched, qs: seq<seq<nat>>)
    requires Queues(s, qs) && !BoostDue(s.ticks + 1)
    ensures Queues(Clock(s), qs)
  {
    SameQueues(s, Clock(s), qs);
  }

  lemma ClockMerges(s: Sched, m: seq<nat>)
    requires |s.procs| == NPROC && Sorted(s, m) && (forall p: nat :: p in m <==> Waiting(s, p)) && BoostDue(s.ticks + 1)
    ensures Queues(Clock(s), [m, [], [], []])
  {
    var t := s.(ticks := s.ticks + 1);
    assert forall p: nat :: Waiting(s, p) <==> Waiting(t, p);
    BoostMerges(t, m);
  }

  lemma HigherIsFirst(s: Sched, qs: seq<seq<nat>>, p: nat)
    requires Inv(s) && Queues(s, qs) && p < NPROC && !Waiting(s, p)
    ensures HigherWaiting(s, p) <==> First(qs) < s.procs[p].queue
  {
    var k := First(qs);
    if k < s.procs[p].queue {
      assert Queue(s, k, qs[k]) && qs[k][0] in qs[k];
    }
    forall q: nat | Waiting(s, q) ensures First(qs) <= s.procs[q].queue {
      assert Queue(s, s.procs[q].queue, qs[s.procs[q].queue]);
    }
  }

  /** The running process, changed and then made ready, goes to the tail of its queue. */
  lemma YieldAppends(s: Sched, qs: seq<seq<nat>>, pr: Proc)
    requires Inv(s) && Queues(s, qs) && 0 <= s.cpu && pr.state == RUNNING && 0 <= pr.queue < 4
    ensures var t := s.(procs := s.procs[s.cpu := pr]);
      Queues(t, qs) && Queues(MakeReady(t, s.cpu).(cpu := -1), Push(qs, pr.queue, s.cpu))
  {
    var p := s.cpu;
    var t := s.(procs := s.procs[p := pr]);
    assert s.procs[p].state == RUNNING;
    assert forall q: nat :: Waiting(t, q) <==> Waiting(s, q);
    assert forall q: nat :: Waiting(t, q) ==> t.procs[q] == s.procs[q] && t.procs[q].stamp < t.seqno;
    hide Inv, Queues;
    SameQueues(s, t, qs);
    ReadyAppends(t, qs, p);
    var r := MakeReady(t, p);
    assert forall q: nat :: Waiting(r, q) <==> Waiting(r.(cpu := -1), q);
    SameQueues(r, r.(cpu := -1), Push(qs, pr.queue, p));
  }

  lemma SameHigher(s: Sched, p: nat, pr: Proc)
    requires p < |s.procs| && pr.queue == s.procs[p].queue
    ensures HigherWaiting(s.(procs := s.procs[p := pr]), p) <==> HigherWaiting(s, p)
  {
    var t := s.(procs := s.procs[p := pr]);
    assert forall q :: 0 <= q < |s.procs| && q != p ==> t.procs[q] == s.procs[q];
  }

  lemma RunningOk(s: Sched)
    requires Inv(s) && 0 <= s.cpu
    ensures s.cpu < NPROC == |s.procs| && s.procs[s.cpu].state == RUNNING && ProcOk(s.procs[s.cpu])
  {
  }

  lemma ChargeRefines(s: Sched, qs: seq<seq<nat>>)
    requires Inv(s) && Queues(s, qs) && 0 <= s.cpu < |s.procs| && |qs| == 4 && ProcOk(s.procs[s.cpu])
    ensures Queues(Charge(s), QCharge(s, qs))
  {
    hide Inv, Queues, HigherWaiting, MakeReady, First, Push;
    RunningOk(s);
    var p := s.procs[s.cpu];
    if p.used + 1 >= Slice(p.queue) {
      YieldAppends(s, qs, p.(queue := Lower(p.queue), used := 0));
    } else {
      YieldAppends(s, qs, p.(used := p.used + 1));
      SameHigher(s, s.cpu, p.(used := p.used + 1));
      HigherIsFirst(s, qs, s.cpu);
    }
  }

  /** The stamp encoding refines four FIFO queues: every step of the kernel is the
      corresponding step on the queues. */
  lemma StepRefinesQueues(s: Sched, qs: seq<seq<nat>>, step: Step)
    requires Inv(s) && Queues(s, qs) && Enabled(s, step)
    ensures Queues(Do(s, step), QDo(s, qs, step))
  {
    var t := Do(s, step);
    match step {
      case Run(p) => DispatchPops(s, qs, p);
      case Tick(_) =>
        ClockRefines(s, qs);
        ClockKeepsInv(s);
        if Charges(s, step) { ChargeRefines(Clock(s), QClock(s, qs)); }
      case Wake(p) => ReadyAppends(s, qs, p);
      case Start(p) => ReadyAppends(s, qs, p);
      case _ => SameQueues(s, t, qs);
    }
  }

  /** The queues along a run. */
  ghost function QRun(ss: seq<Sched>, steps: seq<Step>, qs: seq<seq<nat>>, n: nat): (r: seq<seq<nat>>)
    requires IsRun(ss, steps) && Queues(ss[0], qs) && n < |ss|
    ensures Queues(ss[n], r)
  {
    if n == 0 then qs
    else
      var q := QRun(ss, steps, qs, n - 1);
      RunInv(ss, steps, n - 1);
      assert Next(ss[n - 1], steps[n - 1], ss[n]);
      StepRefinesQueues(ss[n - 1], q, steps[n - 1]);
      QDo(ss[n - 1], q, steps[n - 1])
  }
}
