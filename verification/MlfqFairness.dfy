/** Nobody starves: how long a process that is ready can be kept waiting. */
module MlfqFairness {
  import opened Basics
  import opened Mlfq

  /** The waiting processes with an older stamp than w. */
  ghost function Ahead(s: Sched, w: nat): set<nat>
    requires w < |s.procs|
  {
    set p: nat | p < |s.procs| && Waiting(s, p) && s.procs[p].stamp < s.procs[w].stamp
  }

  /** Nobody overtakes: no step puts a process in front of one that keeps waiting, and a
      switch to another process at queue 0 takes one away. */
  lemma NobodyOvertakes(s: Sched, step: Step, w: nat)
    requires Inv(s) && Enabled(s, step) && Waiting(s, w) && Waiting(Do(s, step), w)
    ensures Do(s, step).procs[w].stamp == s.procs[w].stamp
    ensures Ahead(Do(s, step), w) <= Ahead(s, w)
    ensures step.Run? && s.procs[w].queue == 0 ==> Ahead(Do(s, step), w) <= Ahead(s, w) - {step.p} && step.p in Ahead(s, w)
  {
    if step.Tick? {
      TickOvertakesNobody(s, step, w);
    }
  }

  lemma TickOvertakesNobody(s: Sched, step: Step, w: nat)
    requires Inv(s) && step.Tick? && Enabled(s, step) && Waiting(s, w)
    ensures Waiting(Do(s, step), w) && Do(s, step).procs[w].stamp == s.procs[w].stamp
    ensures Ahead(Do(s, step), w) <= Ahead(s, w)
  {
    var c := Clock(s);
    assert forall p :: 0 <= p < NPROC ==> c.procs[p].state == s.procs[p].state && c.procs[p].stamp == s.procs[p].stamp;
  }

  // ----- waiting time -------------------------------------------------------------------------

  predicate Busy(s: Sched) { s.cpu != -1 }

  /** w waits at queue 0 and whoever has the CPU is in the one-tick slice of queue 0. */
  predicate InFront(s: Sched, w: nat)
    requires w < |s.procs|
  {
    s.procs[w].queue == 0 && (0 <= s.cpu < |s.procs| ==> s.procs[s.cpu].queue == 0)
  }

  /** An upper bound on the ticks that can still be charged while w waits: up to the next
      boost and one for each other process, and once w is in front, one for each process
      ahead and one for the process on the CPU. */
  ghost function Budget(s: Sched, w: nat): int
    requires w < |s.procs|
  {
    if InFront(s, w) then |Ahead(s, w)| + (if Busy(s) then 1 else 0)
    else BOOST - s.ticks % BOOST + NPROC - 1
  }

  /** Neither w nor the running process is ahead of w. */
  lemma FrontBound(s: Sched, w: nat)
    requires Inv(s) && Waiting(s, w)
    ensures |Ahead(s, w)| + (if Busy(s) then 1 else 0) <= NPROC - 1
  {
    hide Below;
    var a := Ahead(s, w);
    var others := a + (if Busy(s) then {s.cpu as nat} else {}) + {w};
    assert w !in a && (Busy(s) ==> s.cpu !in a && s.cpu != w);
    assert forall p :: p in others ==> p < NPROC;
    hide Inv, Ahead;
    SubsetSize(others, Below(NPROC));
  }

  /** A charged tick while w is in front takes the CPU from the running process. */
  lemma ChargedInFront(s: Sched, w: nat)
    requires Inv(s) && Waiting(s, w) && 0 <= s.cpu
    requires InFront(s, w) || BoostDue(s.ticks + 1)
    ensures var t := Do(s, Tick(true)); InFront(t, w) && !Busy(t)
  {
    var c := Clock(s);
    ClockKeepsInv(s);
    assert c.procs[w].queue == 0 && c.procs[c.cpu].queue == 0;
    assert ProcOk(c.procs[c.cpu]);
  }

  lemma ModStep(n: nat)
    ensures (n + 1) % BOOST == (if BoostDue(n + 1) then 0 else n % BOOST + 1)
    ensures BoostDue(n + 1) ==> n % BOOST == BOOST - 1
  {
  }

  /** Every step pays for the ticks it charges. */
  lemma BudgetPays(s: Sched, step: Step, w: nat)
    requires Inv(s) && Enabled(s, step) && Waiting(s, w) && Waiting(Do(s, step), w)
    ensures Budget(Do(s, step), w) + (if Charges(s, step) then 1 else 0) <= Budget(s, w)
  {
    var t := Do(s, step);
    StepKeepsInv(s, step);
    NobodyOvertakes(s, step, w);
    SubsetSize(Ahead(t, w), Ahead(s, w));
    FrontBound(s, w);
    FrontBound(t, w);
    match step {
      case Tick(_) => TickPays(s, step, w);
      case Run(p) =>
        if InFront(s, w) {
          SubsetSize(Ahead(t, w), Ahead(s, w) - {p});
          assert s.procs[p].queue == 0;
        }
      case _ =>
    }
  }

  lemma TickPays(s: Sched, step: Step, w: nat)
    requires Inv(s) && step.Tick? && Enabled(s, step) && Waiting(s, w)
    ensures Waiting(Do(s, step), w)
    ensures Budget(Do(s, step), w) + (if Charges(s, step) then 1 else 0) <= Budget(s, w)
  {
    var t := Do(s, step);
    StepKeepsInv(s, step);
    TickOvertakesNobody(s, step, w);
    SubsetSize(Ahead(t, w), Ahead(s, w));
    FrontBound(s, w);
    FrontBound(t, w);
    ModStep(s.ticks);
    assert t.ticks == s.ticks + 1;
    if Charges(s, step) {
      if InFront(s, w) || BoostDue(s.ticks + 1) {
        ChargedInFront(s, w);
      }
    } else {
      assert InFront(s, w) || BoostDue(s.ticks + 1) ==> InFront(t, w);
    }
  }

  /** w is ready, and not switched to, in the first n steps. */
  ghost predicate KeepsWaiting(ss: seq<Sched>, w: nat, n: nat) {
    n < |ss| && Waiting(ss[0], w) && Waiting(ss[n], w) && forall k :: 0 <= k <= n ==> Waiting(ss[k], w)
  }

  function ChargedTicks(ss: seq<Sched>, steps: seq<Step>, n: nat): nat
    requires |ss| == |steps| + 1 && n <= |steps|
  {
    if n == 0 then 0
    else ChargedTicks(ss, steps, n - 1) + (if Charges(ss[n - 1], steps[n - 1]) then 1 else 0)
  }

  lemma {:induction false} BudgetAlong(ss: seq<Sched>, steps: seq<Step>, w: nat, n: nat)
    requires IsRun(ss, steps) && n <= |steps| && KeepsWaiting(ss, w, n)
    ensures ChargedTicks(ss, steps, n) + Budget(ss[n], w) <= Budget(ss[0], w)
  {
    hide Inv, Enabled, Do, Budget, Charges;
    if n > 0 {
      BudgetAlong(ss, steps, w, n - 1);
      RunInv(ss, steps, n - 1);
      assert Next(ss[n - 1], steps[n - 1], ss[n]);
      BudgetPays(ss[n - 1], steps[n - 1], w);
    }
  }

  /** Starvation freedom: on any run, however other processes are created, sleep, wake and
      exit, a process that is ready is switched to before BOOST + NPROC ticks have been
      charged to others. */
  lemma WaitIsBounded(ss: seq<Sched>, steps: seq<Step>, w: nat)
    requires IsRun(ss, steps) && KeepsWaiting(ss, w, |steps|)
    ensures ChargedTicks(ss, steps, |steps|) < BOOST + NPROC
  {
    BudgetAlong(ss, steps, w, |steps|);
    RunInv(ss, steps, 0);
    RunInv(ss, steps, |steps|);
    FrontBound(ss[0], w);
    FrontBound(ss[|steps|], w);
  }

  // ----- number of switches after a boost -------------------------------------------------------------

  function Switches(steps: seq<Step>, n: nat): nat
    requires n <= |steps|
  {
    if n == 0 then 0 else Switches(steps, n - 1) + (if steps[n - 1].Run? then 1 else 0)
  }

  lemma StaysAtFront(s: Sched, step: Step, w: nat)
    requires Inv(s) && Enabled(s, step) && Waiting(s, w) && Waiting(Do(s, step), w) && s.procs[w].queue == 0
    ensures Do(s, step).procs[w].queue == 0
  {
  }

  /** Once a boost has put w in queue 0, at most as many switches go to other processes as
      were ahead of it, so w gets one of the next |Ahead| + 1. */
  lemma {:induction false} SwitchesBounded(ss: seq<Sched>, steps: seq<Step>, w: nat, n: nat)
    requires IsRun(ss, steps) && n <= |steps| && KeepsWaiting(ss, w, n)
    requires ss[0].procs[w].queue == 0
    ensures ss[n].procs[w].queue == 0
    ensures Switches(steps, n) + |Ahead(ss[n], w)| <= |Ahead(ss[0], w)|
  {
    if n > 0 {
      SwitchesBounded(ss, steps, w, n - 1);
      RunInv(ss, steps, n - 1);
      var s, step := ss[n - 1], steps[n - 1];
      assert Next(s, step, ss[n]);
      NobodyOvertakes(s, step, w);
      StaysAtFront(s, step, w);
      SubsetSize(Ahead(ss[n], w), Ahead(s, w));
      if step.Run? {
        SubsetSize(Ahead(ss[n], w), Ahead(s, w) - {step.p});
      }
    }
  }
}
