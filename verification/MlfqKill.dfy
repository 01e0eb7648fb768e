/** Who is killed (kernel/proc.c): what kkill marks, and when a process comes out of allocproc
    already marked. */
module MlfqKill {
  import opened Mlfq
  import opened MlfqCode

  /** kkill is a run of at most two steps: the first slot with that pid is marked, and its process
      woken if it sleeps. */
  lemma {:induction false} KillIsRun(s: Sched, pid: int, k: nat) returns (ss: seq<Sched>, steps: seq<Step>, p: nat)
    requires Inv(s)
    ensures IsRun(ss, steps) && |ss| == |steps| + 1 && ss[0] == s && ss[|steps|] == KillFrom(s, pid, k)
    ensures |s.procs| == NPROC && forall q :: k <= q < NPROC && q < p ==> s.procs[q].pid != pid
    ensures p < NPROC ==> k <= p && s.procs[p].pid == pid
    ensures steps ==
      if p >= NPROC then [] else if s.procs[p].state == SLEEPING then [Kill(p, pid), Wake(p)] else [Kill(p, pid)]
    decreases |s.procs| - k
  {
    hide Inv, Next, IsRun;
    TableSize(s);
    if k >= |s.procs| {
      RunOfOne(s);
      ss, steps, p := [s], [], k;
    } else if s.procs[k].pid == pid {
      p := k;
      var t := SetKilled(s, k);
      KillNext(s, k, pid);
      if s.procs[k].state == SLEEPING {
        var u := MakeReady(t, k);
        KillWakes(t, k);
        RunOfOne(u);
        Prepend(t, Wake(k), [u], []);
        Prepend(s, Kill(k, pid), [t] + [u], [Wake(k)] + []);
        ss, steps := [s] + ([t] + [u]), [Kill(k, pid)] + ([Wake(k)] + []);
      } else {
        RunOfOne(t);
        Prepend(s, Kill(k, pid), [t], []);
        ss, steps := [s] + [t], [Kill(k, pid)] + [];
      }
    } else {
      ss, steps, p := KillIsRun(s, pid, k + 1);
    }
  }

  lemma KillNext(s: Sched, k: nat, pid: int)
    requires Inv(s) && k < |s.procs| && s.procs[k].pid == pid
    ensures Next(s, Kill(k, pid), SetKilled(s, k)) && Inv(SetKilled(s, k))
  {
    hide Inv;
    StepKeepsInv(s, Kill(k, pid));
  }

  lemma KillWakes(s: Sched, k: nat)
    requires Inv(s) && k < |s.procs| && s.procs[k].state == SLEEPING
    ensures Next(s, Wake(k), MakeReady(s, k)) && Inv(MakeReady(s, k))
  {
    hide Inv;
    StepKeepsInv(s, Wake(k));
  }

  // ----- what one call marks -----------------------------------------------------------------------

  /** A process id other than 0 names at most one slot, which is in use; 0 names the free slots. */
  lemma PidNames(s: Sched, p: nat, q: nat)
    requires Inv(s) && p < NPROC && q < NPROC
    ensures |s.procs| == NPROC && (s.procs[p].pid == 0 <==> s.procs[p].state == UNUSED)
    ensures s.procs[p].pid == s.procs[q].pid != 0 ==> p == q
  {
  }

  lemma {:induction false} KillFromMarks(s: Sched, pid: int, k: nat, p: nat)
    requires k <= |s.procs| && p < |s.procs|
    ensures |KillFrom(s, pid, k).procs| == |s.procs|
    ensures KillFrom(s, pid, k).procs[p].killed <==>
      s.procs[p].killed || (k <= p && s.procs[p].pid == pid && forall q :: k <= q < p ==> s.procs[q].pid != pid)
    decreases |s.procs| - k
  {
    if k < |s.procs| && s.procs[k].pid != pid {
      KillFromMarks(s, pid, k + 1, p);
      assert (forall q :: k <= q < p ==> s.procs[q].pid != pid) <==>
             p <= k || forall q :: k + 1 <= q < p ==> s.procs[q].pid != pid;
    } else if k < |s.procs| && k < p {
      assert s.procs[k].pid == pid;
    }
  }

  /** kkill marks the process with that id; given 0 it marks the free slot that the next allocproc
      will take, and a free slot is marked in no other way. */
  lemma KillMarks(s: Sched, pid: int, p: nat)
    requires Inv(s) && p < NPROC
    ensures |s.procs| == NPROC == |KillFrom(s, pid, 0).procs|
    ensures KillFrom(s, pid, 0).procs[p].killed <==>
      s.procs[p].killed || (s.procs[p].pid == pid && (pid == 0 ==> p == FirstFree(s, 0)))
    ensures s.procs[p].state == UNUSED && KillFrom(s, pid, 0).procs[p].killed && !s.procs[p].killed ==>
      pid == 0 && p == FirstFree(s, 0)
  {
    hide KillFrom;
    TableSize(s);
    KillFromMarks(s, pid, 0, p);
    forall q: nat | q < NPROC ensures s.procs[q].pid == s.procs[p].pid != 0 ==> q == p { PidNames(s, q, p); }
    forall q: nat | q < NPROC ensures s.procs[q].pid == 0 <==> s.procs[q].state == UNUSED { PidNames(s, q, q); }
    hide Inv;
    if pid == 0 && s.procs[p].pid == 0 {
      var f := FirstFree(s, 0);
      assert s.procs[f].pid == 0;
      assert p == f <==> forall q :: 0 <= q < p ==> s.procs[q].pid != 0;
    }
  }

  /** The first free slot stays the same under kkill, so allocproc takes the slot it marked. */
  lemma {:induction false} KillKeepsFree(s: Sched, pid: int, k: nat)
    requires k <= |s.procs|
    ensures var t := KillFrom(s, pid, k);
      && |t.procs| == |s.procs| && t.nextpid == s.nextpid
      && forall q :: 0 <= q < |s.procs| ==>
           t.procs[q].pid == s.procs[q].pid && (t.procs[q].state == UNUSED <==> s.procs[q].state == UNUSED)
    decreases |s.procs| - k
  {
    if k < |s.procs| && s.procs[k].pid != pid { KillKeepsFree(s, pid, k + 1); }
  }

  /** From a state whose free slots are clear: the process that allocproc makes right after
      kkill(pid) is killed if and only if pid is 0. */
  lemma BornAfterKill(s: Sched, pid: int)
    requires Inv(s) && FreeClear(s) && |s.procs| == NPROC && FirstFree(s, 0) < NPROC
    ensures var t := KillFrom(s, pid, 0);
      && |t.procs| == NPROC && FirstFree(t, 0) == FirstFree(s, 0)
      && (Allocate(t, FirstFree(t, 0)).procs[FirstFree(t, 0)].killed <==> pid == 0)
  {
    var t, f := KillFrom(s, pid, 0), FirstFree(s, 0);
    KillKeepsFree(s, pid, 0);
    KillMarks(s, pid, f);
    PidNames(s, f, f);
    hide Inv, KillFrom;
    assert FirstFree(t, 0) == f;
  }

  /** The input: kkill(0), allocproc and the start of the new process leave it ready to run, with
      the next process id, and killed although nobody named it. */
  lemma KillZeroReachesNewborn(s: Sched) returns (ss: seq<Sched>, p: nat)
    requires Inv(s) && |s.procs| == NPROC && FirstFree(s, 0) < NPROC
    ensures p == FirstFree(s, 0) && IsRun(ss, [Kill(p, 0), Alloc(p), Start(p)]) && |ss| == 4 && ss[0] == s
    ensures ss[1] == KillFrom(s, 0, 0) && ss[2] == Allocate(ss[1], p) && |ss[3].procs| == NPROC
    ensures ss[3].procs[p].state == RUNNABLE && ss[3].procs[p].pid == s.nextpid && ss[3].procs[p].killed
  {
    p := FirstFree(s, 0);
    PidNames(s, p, p);
    var t := SetKilled(s, p);
    KillNext(s, p, 0);
    forall q: nat | q < p ensures s.procs[q].pid != 0 { PidNames(s, q, q); }
    KillAt(s, 0, 0, p);
    hide Inv, KillFrom;
    StepKeepsInv(t, Alloc(p));
    var u := Allocate(t, p);
    StepKeepsInv(u, Start(p));
    var v := MakeReady(u, p);
    ss := [s, t, u, v];
    assert Next(s, Kill(p, 0), t) && Next(t, Alloc(p), u) && Next(u, Start(p), v);
  }

  lemma {:induction false} KillAt(s: Sched, pid: int, k: nat, p: nat)
    requires k <= p < |s.procs| && s.procs[p].pid == pid && s.procs[p].state != SLEEPING
    requires forall q :: k <= q < p ==> s.procs[q].pid != pid
    ensures KillFrom(s, pid, k) == SetKilled(s, p)
    decreases |s.procs| - k
  {
    if k < p { KillAt(s, pid, k + 1, p); }
  }

  // ----- over whole runs ---------------------------------------------------------------------------

  /** The step sets the flag of slot p. */
  predicate Marks(s: Sched, step: Step, p: nat) { (step.Kill? && step.p == p) || (step.KillSelf? && s.cpu == p) }

  lemma KilledStep(s: Sched, step: Step, p: nat)
    requires Inv(s) && Enabled(s, step) && p < NPROC
    ensures |s.procs| == NPROC == |Do(s, step).procs|
    ensures Do(s, step).procs[p].killed <==> Marks(s, step, p) || (s.procs[p].killed && step != Release(p))
    ensures step != Alloc(p) && step != Release(p) ==> Do(s, step).procs[p].pid == s.procs[p].pid
    ensures step == Alloc(p) ==> Do(s, step).procs[p].pid == s.nextpid
    ensures Do(s, step).nextpid >= s.nextpid
  {
    hide PidsOk;
  }

  /** kkill(0) reached slot p since the slot was last released. */
  ghost predicate ZeroKilled(steps: seq<Step>, p: nat, n: nat)
    requires n <= |steps|
  {
    exists i :: 0 <= i < n && steps[i] == Kill(p, 0) && forall j :: i < j < n ==> steps[j] != Release(p)
  }

  lemma ZeroKilledNext(steps: seq<Step>, p: nat, n: nat)
    requires n < |steps|
    ensures ZeroKilled(steps, p, n + 1) <==> steps[n] == Kill(p, 0) || (ZeroKilled(steps, p, n) && steps[n] != Release(p))
  {
    if steps[n] == Kill(p, 0) {
      assert 0 <= n < n + 1 && steps[n] == Kill(p, 0);
    } else if ZeroKilled(steps, p, n) && steps[n] != Release(p) {
      var i :| 0 <= i < n && steps[i] == Kill(p, 0) && forall j :: i < j < n ==> steps[j] != Release(p);
      assert steps[i] == Kill(p, 0) && forall j :: i < j < n + 1 ==> steps[j] != Release(p);
    }
  }

  /** Marked, by whatever step, since the slot was last released. */
  ghost predicate KilledSince(ss: seq<Sched>, steps: seq<Step>, p: nat, n: nat)
    requires |ss| == |steps| + 1 && n <= |steps|
  {
    exists i :: 0 <= i < n && Marks(ss[i], steps[i], p) && forall j :: i < j < n ==> steps[j] != Release(p)
  }

  lemma KilledSinceNext(ss: seq<Sched>, steps: seq<Step>, p: nat, n: nat)
    requires |ss| == |steps| + 1 && n < |steps|
    ensures KilledSince(ss, steps, p, n + 1) <==>
      Marks(ss[n], steps[n], p) || (KilledSince(ss, steps, p, n) && steps[n] != Release(p))
  {
    if Marks(ss[n], steps[n], p) {
      assert 0 <= n < n + 1 && Marks(ss[n], steps[n], p);
    } else if KilledSince(ss, steps, p, n) && steps[n] != Release(p) {
      var i :| 0 <= i < n && Marks(ss[i], steps[i], p) && forall j :: i < j < n ==> steps[j] != Release(p);
      assert Marks(ss[i], steps[i], p) && forall j :: i < j < n + 1 ==> steps[j] != Release(p);
    }
  }

  /** Nothing but the release of its slot takes a mark back. */
  lemma {:induction false} KilledIff(ss: seq<Sched>, steps: seq<Step>, p: nat, n: nat)
    requires IsRun(ss, steps) && p < NPROC && p < |ss[0].procs| && !ss[0].procs[p].killed && n <= |steps|
    ensures |ss| == |steps| + 1 && |ss[n].procs| == NPROC && (ss[n].procs[p].killed <==> KilledSince(ss, steps, p, n))
  {
    hide Inv, KilledSince, Marks, Enabled;
    RunInv(ss, steps, n);
    TableSize(ss[n]);
    if n == 0 {
      NotKilledYet(ss, steps, p);
    } else {
      KilledIff(ss, steps, p, n - 1);
      RunInv(ss, steps, n - 1);
      assert Next(ss[n - 1], steps[n - 1], ss[n]);
      KilledStep(ss[n - 1], steps[n - 1], p);
      KilledSinceNext(ss, steps, p, n - 1);
    }
  }

  lemma NotKilledYet(ss: seq<Sched>, steps: seq<Step>, p: nat)
    requires |ss| == |steps| + 1
    ensures !KilledSince(ss, steps, p, 0)
  {
  }

  /** A free slot is marked exactly when kkill(0) reached it since it was last released. */
  lemma {:induction false} FreeKilledIff(ss: seq<Sched>, steps: seq<Step>, p: nat, n: nat)
    requires IsRun(ss, steps) && FreeClear(ss[0]) && p < NPROC && n <= |steps|
    ensures |ss[n].procs| == NPROC
    ensures ss[n].procs[p].state == UNUSED ==> (ss[n].procs[p].killed <==> ZeroKilled(steps, p, n))
  {
    hide Inv, FreeClear, ZeroKilled;
    RunInv(ss, steps, n);
    TableSize(ss[n]);
    if n == 0 {
      ClearAtStart(ss[0], steps, p);
    } else {
      FreeKilledIff(ss, steps, p, n - 1);
      RunInv(ss, steps, n - 1);
      var s, step := ss[n - 1], steps[n - 1];
      assert Next(s, step, ss[n]);
      KilledStep(s, step, p);
      FreedBy(s, step, p);
      ZeroKilledNext(steps, p, n - 1);
    }
  }

  lemma ClearAtStart(s: Sched, steps: seq<Step>, p: nat)
    requires FreeClear(s) && p < |s.procs|
    ensures !ZeroKilled(steps, p, 0) && (s.procs[p].state == UNUSED ==> !s.procs[p].killed)
  {
  }

  /** A slot is free after a step if the step released it, or it was free before; and then only
      kkill(0) can have marked it in the step. */
  lemma FreedBy(s: Sched, step: Step, p: nat)
    requires Inv(s) && Enabled(s, step) && p < NPROC && |s.procs| == NPROC == |Do(s, step).procs|
    ensures Do(s, step).procs[p].state == UNUSED ==>
      step == Release(p) || (s.procs[p].state == UNUSED && (Marks(s, step, p) <==> step == Kill(p, 0)))
    ensures step == Release(p) ==> !Do(s, step).procs[p].killed
  {
    PidNames(s, p, p);
    hide PidsOk;
  }

  /** In every run: a process comes out of allocproc killed if and only if kkill(0) reached its slot
      since the slot was last released. */
  lemma BornKilledIff(ss: seq<Sched>, steps: seq<Step>, p: nat, n: nat)
    requires IsRun(ss, steps) && FreeClear(ss[0]) && n < |steps| && steps[n] == Alloc(p)
    ensures p < |ss[n + 1].procs| && (ss[n + 1].procs[p].killed <==> ZeroKilled(steps, p, n))
  {
    hide Inv, FreeClear, ZeroKilled;
    RunInv(ss, steps, n);
    TableSize(ss[n]);
    assert Next(ss[n], steps[n], ss[n + 1]);
    FreeKilledIff(ss, steps, p, n);
    KilledStep(ss[n], steps[n], p);
  }

  ghost predicate NeverZero(steps: seq<Step>) { forall i :: 0 <= i < |steps| && steps[i].Kill? ==> steps[i].pid != 0 }

  /** As long as kkill is not called with 0, free slots stay clear and nobody is born killed. */
  lemma NobodyBornKilled(ss: seq<Sched>, steps: seq<Step>, n: nat)
    requires IsRun(ss, steps) && FreeClear(ss[0]) && NeverZero(steps) && n <= |steps|
    ensures FreeClear(ss[n])
    ensures n < |steps| && steps[n].Alloc? ==> steps[n].p < |ss[n + 1].procs| && !ss[n + 1].procs[steps[n].p].killed
  {
    hide Inv, IsRun;
    RunLength(ss, steps);
    RunInv(ss, steps, n);
    TableSize(ss[n]);
    forall p | 0 <= p < NPROC && ss[n].procs[p].state == UNUSED ensures !ss[n].procs[p].killed {
      FreeKilledIff(ss, steps, p, n);
      assert !ZeroKilled(steps, p, n);
    }
    if n < |steps| && steps[n].Alloc? { BornKilledIff(ss, steps, steps[n].p, n); }
  }

  lemma RunLength(ss: seq<Sched>, steps: seq<Step>)
    requires IsRun(ss, steps)
    ensures |ss| == |steps| + 1
  {
  }

  // ----- and then a process is killed only by its own id --------------------------------------------

  /** Step i marked slot p while it held the process with that id. */
  ghost predicate MarkedAs(ss: seq<Sched>, steps: seq<Step>, p: nat, pid: int, i: int)
    requires |ss| == |steps| + 1
  {
    0 <= i < |steps| && Marks(ss[i], steps[i], p) && p < |ss[i].procs| && ss[i].procs[p].pid == pid
  }

  ghost predicate MarkedBefore(ss: seq<Sched>, steps: seq<Step>, p: nat, pid: int, n: int)
    requires |ss| == |steps| + 1
  {
    exists i :: 0 <= i < n && MarkedAs(ss, steps, p, pid, i)
  }

  lemma {:induction false} PidsGrow(ss: seq<Sched>, steps: seq<Step>, i: nat, n: nat)
    requires IsRun(ss, steps) && i <= n <= |steps|
    ensures ss[i].nextpid <= ss[n].nextpid
    decreases n
  {
    hide Inv;
    if i < n {
      PidsGrow(ss, steps, i, n - 1);
      RunInv(ss, steps, n - 1);
      assert Next(ss[n - 1], steps[n - 1], ss[n]);
      KilledStep(ss[n - 1], steps[n - 1], 0);
    }
  }

  lemma PidBelow(s: Sched, p: nat)
    requires Inv(s) && p < NPROC
    ensures |s.procs| == NPROC && s.procs[p].pid < s.nextpid
  {
  }

  lemma NotMarkedYet(ss: seq<Sched>, steps: seq<Step>, p: nat, n: nat)
    requires IsRun(ss, steps) && p < NPROC && n <= |steps|
    ensures |ss| == |steps| + 1 && !MarkedBefore(ss, steps, p, ss[n].nextpid, n)
  {
    hide Inv, Next;
    forall i | 0 <= i < n ensures !MarkedAs(ss, steps, p, ss[n].nextpid, i) {
      RunInv(ss, steps, i);
      PidBelow(ss[i], p);
      PidsGrow(ss, steps, i, n);
    }
  }

  lemma MarkedNext(ss: seq<Sched>, steps: seq<Step>, p: nat, pid: int, n: nat)
    requires |ss| == |steps| + 1 && n < |steps|
    ensures MarkedBefore(ss, steps, p, pid, n + 1) <==> MarkedBefore(ss, steps, p, pid, n) || MarkedAs(ss, steps, p, pid, n)
  {
    hide MarkedAs;
    if MarkedBefore(ss, steps, p, pid, n) {
      var i :| 0 <= i < n && MarkedAs(ss, steps, p, pid, i);
      assert MarkedAs(ss, steps, p, pid, i);
    }
  }

  /** With nobody killed at boot and no kkill(0): a process is killed if and only if kkill was called
      with its own id, or it was the running process in a setkilled, since it was made. */
  lemma {:induction false} KilledByOwnPid(ss: seq<Sched>, steps: seq<Step>, p: nat, n: nat)
    requires IsRun(ss, steps) && NeverZero(steps) && p < NPROC && n <= |steps|
    requires forall q :: 0 <= q < |ss[0].procs| ==> !ss[0].procs[q].killed
    ensures |ss| == |steps| + 1 && |ss[n].procs| == NPROC
    ensures ss[n].procs[p].state != UNUSED ==>
      (ss[n].procs[p].killed <==> MarkedBefore(ss, steps, p, ss[n].procs[p].pid, n))
  {
    hide Inv, MarkedBefore, NeverZero, Next, Enabled;
    RunInv(ss, steps, n);
    TableSize(ss[n]);
    if n == 0 {
      NothingBefore(ss, steps, p, ss[0].procs[p].pid);
    } else {
      KilledByOwnPid(ss, steps, p, n - 1);
      RunInv(ss, steps, n - 1);
      assert Next(ss[n - 1], steps[n - 1], ss[n]);
      OwnPidStep(ss, steps, p, n - 1);
    }
  }

  lemma NothingBefore(ss: seq<Sched>, steps: seq<Step>, p: nat, pid: int)
    requires |ss| == |steps| + 1
    ensures !MarkedBefore(ss, steps, p, pid, 0)
  {
  }

  lemma OwnPidStep(ss: seq<Sched>, steps: seq<Step>, p: nat, n: nat)
    requires IsRun(ss, steps) && NeverZero(steps) && p < NPROC && n < |steps|
    requires forall q :: 0 <= q < |ss[0].procs| ==> !ss[0].procs[q].killed
    requires Inv(ss[n]) && |ss[n].procs| == NPROC && |ss[n + 1].procs| == NPROC && Next(ss[n], steps[n], ss[n + 1])
    requires ss[n].procs[p].state != UNUSED ==>
      (ss[n].procs[p].killed <==> MarkedBefore(ss, steps, p, ss[n].procs[p].pid, n))
    ensures ss[n + 1].procs[p].state != UNUSED ==>
      (ss[n + 1].procs[p].killed <==> MarkedBefore(ss, steps, p, ss[n + 1].procs[p].pid, n + 1))
  {
    hide Inv, MarkedBefore, NeverZero, IsRun;
    RunLength(ss, steps);
    var s, step, t := ss[n], steps[n], ss[n + 1];
    KilledStep(s, step, p);
    UsedBy(s, step, p);
    MarkedNext(ss, steps, p, t.procs[p].pid, n);
    if step == Alloc(p) {
      NotMarkedYet(ss, steps, p, n);
      BornClear(ss, steps, p, n);
    }
  }

  lemma BornClear(ss: seq<Sched>, steps: seq<Step>, p: nat, n: nat)
    requires IsRun(ss, steps) && NeverZero(steps) && p < NPROC && n < |steps| && steps[n] == Alloc(p)
    requires forall q :: 0 <= q < |ss[0].procs| ==> !ss[0].procs[q].killed
    ensures p < |ss[n + 1].procs| && !ss[n + 1].procs[p].killed
  {
    hide Inv;
    NobodyBornKilled(ss, steps, n);
  }

  /** A slot in use after a step that did not allocate it was in use before, by the same process. */
  lemma UsedBy(s: Sched, step: Step, p: nat)
    requires Inv(s) && Enabled(s, step) && p < NPROC && |s.procs| == NPROC == |Do(s, step).procs|
    ensures Do(s, step).procs[p].state != UNUSED && step != Alloc(p) ==> s.procs[p].state != UNUSED && step != Release(p)
  {
    hide PidsOk;
  }
}
