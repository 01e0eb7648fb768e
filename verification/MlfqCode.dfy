/** The scheduler's code (kernel/proc.c, kernel/trap.c): loops over the process table, proved
    to compute the operations of Mlfq. */
module MlfqCode {
  import opened Mlfq

  /** The channel sys_pause sleeps on. */
  const TICKS_CHAN: int := 1

  predicate Sleeper(s: Sched, chan: int, p: nat)
    requires p < |s.procs|
  {
    p != s.cpu && s.procs[p].state == SLEEPING && s.procs[p].chan == chan
  }

  /** wakeup's effect on slots k and up, in slot order. */
  function WakeFrom(s: Sched, chan: int, k: nat): Sched
    decreases |s.procs| - k
  {
    if k >= |s.procs| then s
    else WakeFrom(if Sleeper(s, chan, k) then MakeReady(s, k) else s, chan, k + 1)
  }

  /** kkill marks the first process with the given pid, and wakes it if it sleeps. */
  function KillFrom(s: Sched, pid: int, k: nat): Sched
    decreases |s.procs| - k
  {
    if k >= |s.procs| then s
    else if s.procs[k].pid == pid then
      (if s.procs[k].state == SLEEPING then MakeReady(SetKilled(s, k), k) else SetKilled(s, k))
    else KillFrom(s, pid, k + 1)
  }

  /** No free slot is marked as killed. */
  ghost predicate FreeClear(s: Sched) {
    forall p :: 0 <= p < |s.procs| && s.procs[p].state == UNUSED ==> !s.procs[p].killed
  }

  /** The first free slot from k on, or the end. */
  function FirstFree(s: Sched, k: nat): (p: nat)
    requires k <= |s.procs|
    ensures k <= p <= |s.procs| && (p < |s.procs| ==> s.procs[p].state == UNUSED)
    ensures forall q :: k <= q < p ==> s.procs[q].state != UNUSED
    decreases |s.procs| - k
  {
    if k == |s.procs| || s.procs[k].state == UNUSED then k else FirstFree(s, k + 1)
  }

  class Scheduler {
    const procs: array<Proc>
    var seqno: nat
    var ticks: nat
    var cpu: int
    var nextpid: int

    ghost predicate Valid()
      reads this
    {
      procs.Length == NPROC && -1 <= cpu < NPROC
    }

    ghost function View(): (s: Sched)
      reads this, procs
    {
      Sched(procs[..], seqno, ticks, cpu, nextpid)
    }

    /** procinit: every slot unused. */
    constructor ()
      ensures Valid() && fresh(procs) && Inv(View()) && Queues(View(), [[], [], [], []]) && FreeClear(View())
    {
      procs := new Proc[NPROC](_ => Proc(UNUSED, 0, 0, false, 0, 0, 0));
      seqno, ticks, cpu, nextpid := 0, 0, -1, 1;
    }

    /** Set RUNNABLE and mlfq_enqueue. */
    method Ready(p: nat)
      requires Valid() && p < NPROC
      modifies procs, this`seqno
      ensures Valid() && View() == MakeReady(old(View()), p)
    {
      procs[p] := procs[p].(state := RUNNABLE, stamp := seqno);
      seqno := seqno + 1;
    }

    /** The scheduler's scan: -1 when nothing is runnable. */
    method PickBest() returns (best: int)
      requires Valid()
      ensures best == -1 ==> forall p: nat :: !Waiting(View(), p)
      ensures best != -1 ==> 0 <= best && IsBest(View(), best)
    {
      best := -1;
      var bestQueue, bestTime := 0, 0;
      var p := 0;
      while p < NPROC
        invariant 0 <= p <= NPROC && -1 <= best < p
        invariant best == -1 ==> forall q :: 0 <= q < p ==> procs[q].state != RUNNABLE
        invariant best != -1 ==> procs[best].state == RUNNABLE && bestQueue == procs[best].queue && bestTime == procs[best].stamp
        invariant best != -1 ==> forall q :: 0 <= q < p && procs[q].state == RUNNABLE ==> !Better(procs[q], procs[best])
      {
        if procs[p].state == RUNNABLE &&
           (best == -1 || procs[p].queue < bestQueue || (procs[p].queue == bestQueue && procs[p].stamp < bestTime)) {
          best, bestQueue, bestTime := p, procs[p].queue, procs[p].stamp;
        }
        p := p + 1;
      }
    }

    /** One round of scheduler(): false means the CPU idles. */
    method Schedule() returns (found: bool)
      requires Valid() && cpu == -1
      modifies procs, this`cpu
      ensures Valid() && (!found ==> View() == old(View()) && forall p: nat :: !Waiting(View(), p))
      ensures found ==> 0 <= cpu && IsBest(old(View()), cpu) && View() == Dispatch(old(View()), cpu)
    {
      var best := PickBest();
      found := best != -1;
      if found {
        procs[best] := procs[best].(state := RUNNING);
        cpu := best;
      }
    }

    method Yield()
      requires Valid() && 0 <= cpu
      modifies procs, this`seqno, this`cpu
      ensures Valid() && View() == MakeReady(old(View()), old(cpu)).(cpu := -1)
    {
      Ready(cpu);
      cpu := -1;
    }

    /** The scan of mlfq_tick for a waiting process of a higher queue. */
    method AnyHigher(p: nat) returns (waiting: bool)
      requires Valid() && p < NPROC
      ensures waiting == HigherWaiting(View(), p)
    {
      waiting := false;
      var q := 0;
      while q < NPROC
        invariant 0 <= q <= NPROC
        invariant waiting <==> exists k :: 0 <= k < q && k != p && procs[k].state == RUNNABLE && procs[k].queue < procs[p].queue
      {
        if q != p && procs[q].state == RUNNABLE && procs[q].queue < procs[p].queue {
          waiting := true;
        }
        q := q + 1;
      }
    }

    method MlfqTick()
      requires Valid() && 0 <= cpu
      modifies procs, this`seqno, this`cpu
      ensures Valid() && View() == Charge(old(View()))
    {
      var p := cpu;
      procs[p] := procs[p].(used := procs[p].used + 1);
      if procs[p].used >= Slice(procs[p].queue) {
        if procs[p].queue < 3 {
          procs[p] := procs[p].(queue := procs[p].queue + 1);
        }
        procs[p] := procs[p].(used := 0);
        Yield();
        return;
      }
      var waiting := AnyHigher(p);
      if waiting {
        Yield();
      }
    }

    method MlfqBoost()
      requires Valid()
      modifies procs
      ensures Valid() && View() == Boost(old(View()))
    {
      var p := 0;
      while p < NPROC
        invariant 0 <= p <= NPROC
        invariant forall q :: 0 <= q < p ==> procs[q] == Boosted(old(procs[q]))
        invariant forall q :: p <= q < NPROC ==> procs[q] == old(procs[q])
      {
        if procs[p].state != UNUSED {
          procs[p] := procs[p].(queue := 0, used := 0);
        }
        p := p + 1;
      }
    }

    method Sleep(chan: int)
      requires Valid() && 0 <= cpu
      modifies procs, this`cpu
      ensures Valid() && View() == GoToSleep(old(View()), chan)
    {
      procs[cpu] := procs[cpu].(state := SLEEPING, chan := chan, used := 0);
      cpu := -1;
    }

    method Wakeup(chan: int)
      requires Valid()
      modifies procs, this`seqno
      ensures Valid() && View() == WakeFrom(old(View()), chan, 0)
    {
      var p := 0;
      while p < NPROC
        invariant 0 <= p <= NPROC && Valid()
        invariant WakeFrom(View(), chan, p) == WakeFrom(old(View()), chan, 0)
      {
        if p != cpu && procs[p].state == SLEEPING && procs[p].chan == chan {
          Ready(p);
        }
        p := p + 1;
      }
    }

    /** allocproc up to the memory allocations: the first free slot, or -1. */
    method AllocProc() returns (r: int)
      requires Valid()
      modifies procs, this`nextpid
      ensures Valid() && (r == -1 <==> FirstFree(old(View()), 0) == NPROC)
      ensures r == -1 ==> View() == old(View())
      ensures r != -1 ==> r == FirstFree(old(View()), 0) && View() == Allocate(old(View()), r)
    {
      var p := 0;
      while p < NPROC
        invariant 0 <= p <= NPROC && FirstFree(View(), p) == FirstFree(View(), 0)
      {
        if procs[p].state == UNUSED {
          procs[p] := procs[p].(pid := nextpid, state := USED, queue := 0, used := 0);
          nextpid := nextpid + 1;
          return p;
        }
        p := p + 1;
      }
      return -1;
    }

    method Kkill(pid: int) returns (found: bool)
      requires Valid()
      modifies procs, this`seqno
      ensures Valid() && View() == KillFrom(old(View()), pid, 0)
      ensures found <==> exists p :: 0 <= p < NPROC && old(procs[p]).pid == pid
    {
      var p := 0;
      while p < NPROC
        invariant 0 <= p <= NPROC && View() == old(View())
        invariant KillFrom(View(), pid, p) == KillFrom(old(View()), pid, 0)
        invariant forall q :: 0 <= q < p ==> procs[q].pid != pid
      {
        if procs[p].pid == pid {
          procs[p] := procs[p].(killed := true);
          if procs[p].state == SLEEPING {
            Ready(p);
          }
          return true;
        }
        p := p + 1;
      }
      found := false;
    }

    /** clockintr: tick, wake the sleepers, and boost when due. */
    method ClockIntr()
      requires Valid()
      modifies procs, this`seqno, this`ticks
      ensures Valid() && View() == Clock(WakeFrom(old(View()), TICKS_CHAN, 0))
    {
      WakeIgnoresTicks(View(), TICKS_CHAN, 0, ticks + 1);
      ticks := ticks + 1;
      assert View() == old(View()).(ticks := ticks);
      Wakeup(TICKS_CHAN);
      if ticks % 48 == 0 {
        MlfqBoost();
      }
    }

    /** A timer interrupt: clockintr, then the tick is charged to the process it interrupted. */
    method TimerInterrupt()
      requires Valid() && Inv(View())
      modifies procs, this`seqno, this`ticks, this`cpu
      ensures Valid() && Inv(View())
      ensures View() == Do(WakeFrom(old(View()), TICKS_CHAN, 0), Tick(true))
    {
      WakeKeepsInv(View(), TICKS_CHAN, 0);
      StepKeepsInv(WakeFrom(View(), TICKS_CHAN, 0), Tick(true));
      ClockIntr();
      if cpu != -1 {
        MlfqTick();
      }
    }
  }

  lemma {:induction false} WakeIgnoresTicks(s: Sched, chan: int, k: nat, n: nat)
    ensures WakeFrom(s, chan, k).ticks == s.ticks
    ensures WakeFrom(s.(ticks := n), chan, k) == WakeFrom(s, chan, k).(ticks := n)
    decreases |s.procs| - k
  {
    if k < |s.procs| {
      WakeIgnoresTicks(if Sleeper(s, chan, k) then MakeReady(s, k) else s, chan, k + 1, n);
    }
  }

  lemma Prepend(s: Sched, step: Step, ss: seq<Sched>, steps: seq<Step>)
    requires Inv(s) && IsRun(ss, steps) && |ss| > 0 && Next(s, step, ss[0])
    ensures IsRun([s] + ss, [step] + steps)
  {
    hide Inv, Next;
    var ss', steps' := [s] + ss, [step] + steps;
    forall i | 0 <= i < |steps'| ensures Next(ss'[i], steps'[i], ss'[i + 1]) {
      if i > 0 {
        assert Next(ss[i - 1], steps[i - 1], ss[i]);
      }
    }
  }

  lemma {:induction false} WakeKeepsInv(s: Sched, chan: int, k: nat)
    requires Inv(s)
    ensures Inv(WakeFrom(s, chan, k)) && WakeFrom(s, chan, k).cpu == s.cpu
    decreases |s.procs| - k
  {
    if k < |s.procs| {
      if Sleeper(s, chan, k) { StepKeepsInv(s, Wake(k)); }
      WakeKeepsInv(if Sleeper(s, chan, k) then MakeReady(s, k) else s, chan, k + 1);
    }
  }

  /** wakeup is a run of single wake-ups, in slot order; so everything proved about runs
      holds across it. */
  lemma {:induction false} WakeupIsRun(s: Sched, chan: int, k: nat) returns (ss: seq<Sched>, steps: seq<Step>)
    requires Inv(s)
    ensures IsRun(ss, steps) && |ss| == |steps| + 1 && ss[0] == s && ss[|steps|] == WakeFrom(s, chan, k)
    ensures forall i :: 0 <= i < |steps| ==> steps[i].Wake? && k <= steps[i].p < NPROC && s.procs[steps[i].p].chan == chan
    ensures forall i, j :: 0 <= i < j < |steps| ==> steps[i].Wake? && steps[j].Wake? && steps[i].p < steps[j].p
    decreases |s.procs| - k
  {
    hide Inv, Next, Enabled, Do, IsRun;
    TableSize(s);
    if k >= |s.procs| {
      RunOfOne(s);
      ss, steps := [s], [];
    } else if Sleeper(s, chan, k) {
      var t := MakeReady(s, k);
      WakeNext(s, chan, k);
      var ss', steps' := WakeupIsRun(t, chan, k + 1);
      Prepend(s, Wake(k), ss', steps');
      ss, steps := [s] + ss', [Wake(k)] + steps';
    } else {
      ss, steps := WakeupIsRun(s, chan, k + 1);
    }
  }

  lemma WakeNext(s: Sched, chan: int, k: nat)
    requires Inv(s) && k < |s.procs| && Sleeper(s, chan, k)
    ensures Next(s, Wake(k), MakeReady(s, k)) && Inv(MakeReady(s, k))
  {
    hide Inv;
    StepKeepsInv(s, Wake(k));
  }

  lemma TableSize(s: Sched)
    requires Inv(s)
    ensures |s.procs| == NPROC
  {
  }

  lemma RunOfOne(s: Sched)
    requires Inv(s)
    ensures IsRun([s], [])
  {
  }
}
