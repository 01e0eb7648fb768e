/** Sleep locks (kernel/sleeplock.c) on top of sleep and wakeup (kernel/proc.c), with the
    two spin locks they use spelled out: lk->lk of the sleep lock and p->lock of every
    process.  One sleep lock, any number of processes, any interleaving of their steps. */
module SleepLock {
  /** Where a process is. */
  datatype Pc =
    | Idle
    | Acquire          // acquiresleep: about to take lk
    | Test             // while (lk->locked)
    | SleepEnter       // sleep: about to take p->lock, still holding lk
    | SleepRelease     // holding both: about to release lk
    | SleepChan        // p->chan = lk
    | SleepState       // p->state = SLEEPING
    | SleepSwitch      // sched: the scheduler will release p->lock
    | Away             // not on a CPU
    | Resume           // back from sched, holding p->lock: p->chan = 0, release it
    | Reacquire        // about to take lk again
    | Took             // locked set, about to release lk
    | Holding          // has the sleep lock
    | Release          // releasesleep: about to take lk
    | Unlock           // lk->locked = 0
    | Scan(k: nat)     // wakeup: about to take the lock of process k
    | Look(k: nat)     // holding the lock of process k
    | Done             // about to release lk

  datatype PState = Running | Sleeping | Runnable

  /** lock is the holder of p->lock, -1 if free; chan says whether p->chan is the sleep lock. */
  datatype Proc = Proc(pc: Pc, state: PState, chan: bool, lock: int)

  /** lk is the holder of the spin lock, -1 if free; pid that of the sleep lock. */
  datatype Sys = Sys(lk: int, locked: bool, pid: int, ps: seq<Proc>)

  datatype Step =
    | Call(t: nat)       // a process calls acquiresleep
    | Leave(t: nat)      // the holder calls releasesleep
    | Go(t: nat)         // process t takes its next step
    | SwitchTo(t: nat)   // the scheduler resumes a runnable process
    | Kill(t: nat)       // kkill wakes a sleeper

  predicate Initial(s: Sys) {
    s.lk == -1 && !s.locked && s.pid == -1 && forall t :: 0 <= t < |s.ps| ==> s.ps[t] == Proc(Idle, Running, false, -1)
  }

  function At(s: Sys, t: nat, pc: Pc): Sys
    requires t < |s.ps|
  {
    s.(ps := s.ps[t := s.ps[t].(pc := pc)])
  }

  /** Can process t take its next step?  Taking a spin lock waits until it is free. */
  predicate CanGo(s: Sys, t: nat)
    requires t < |s.ps|
  {
    match s.ps[t].pc
    case Acquire => s.lk == -1
    case Reacquire => s.lk == -1
    case Release => s.lk == -1
    case SleepEnter => s.ps[t].lock == -1
    case Scan(k) => k < |s.ps| && k != t ==> s.ps[k].lock == -1
    case Idle => false
    case Away => false
    case Holding => false
    case Look(k) => k < |s.ps|
    case _ => true
  }

  function Advance(s: Sys, t: nat): Sys
    requires t < |s.ps| && CanGo(s, t)
  {
    var p := s.ps[t];
    match p.pc
    case Acquire => At(s, t, Test).(lk := t)
    case Test => if s.locked then At(s, t, SleepEnter) else At(s, t, Took).(locked := true, pid := t)
    case SleepEnter => s.(ps := s.ps[t := p.(pc := SleepRelease, lock := t)])
    case SleepRelease => At(s, t, SleepChan).(lk := -1)
    case SleepChan => s.(ps := s.ps[t := p.(pc := SleepState, chan := true)])
    case SleepState => s.(ps := s.ps[t := p.(pc := SleepSwitch, state := Sleeping)])
    case SleepSwitch => s.(ps := s.ps[t := p.(pc := Away, lock := -1)])
    case Resume => s.(ps := s.ps[t := p.(pc := Reacquire, chan := false, lock := -1)])
    case Reacquire => At(s, t, Test).(lk := t)
    case Took => At(s, t, Holding).(lk := -1)
    case Release => At(s, t, Unlock).(lk := t)
    case Unlock => At(s, t, Scan(0)).(locked := false, pid := -1)
    case Scan(k) =>
      if k >= |s.ps| then At(s, t, Done)
      else if k == t then At(s, t, Scan(k + 1))
      else At(s, t, Look(k)).(ps := s.ps[t := p.(pc := Look(k))][k := s.ps[k].(lock := t)])
    case Look(k) =>
      var q := s.ps[k];
      var q' := q.(lock := -1, state := if q.state == Sleeping && q.chan then Runnable else q.state);
      s.(ps := s.ps[k := q'][t := p.(pc := Scan(k + 1))])
    case Done => At(s, t, Idle).(lk := -1)
    case _ => s
  }

  predicate Enabled(s: Sys, step: Step) {
    step.t < |s.ps| &&
    match step
    case Call(t) => s.ps[t].pc == Idle
    case Leave(t) => s.ps[t].pc == Holding
    case Go(t) => CanGo(s, t)
    case SwitchTo(t) => s.ps[t].state == Runnable && s.ps[t].pc == Away && s.ps[t].lock == -1
    case Kill(t) => s.ps[t].state == Sleeping && s.ps[t].lock == -1
  }

  function Do(s: Sys, step: Step): Sys
    requires Enabled(s, step)
  {
    match step
    case Call(t) => At(s, t, Acquire)
    case Leave(t) => At(s, t, Release)
    case Go(t) => Advance(s, t)
    case SwitchTo(t) => s.(ps := s.ps[t := s.ps[t].(pc := Resume, state := Running, lock := t)])
    case Kill(t) => s.(ps := s.ps[t := s.ps[t].(state := Runnable)])
  }

  ghost predicate Next(s: Sys, step: Step, t: Sys) { Enabled(s, step) && Do(s, step) == t }

  ghost predicate IsRun(ss: seq<Sys>, steps: seq<Step>) {
    && |ss| == |steps| + 1
    && Initial(ss[0])
    && forall k :: 0 <= k < |steps| ==> Next(ss[k], steps[k], ss[k + 1])
  }

  // ----- the invariant ---------------------------------------------------------------------

  predicate InLk(pc: Pc) {
    pc.Test? || pc.SleepEnter? || pc.SleepRelease? || pc.Took? || pc.Unlock? || pc.Scan? || pc.Look? || pc.Done?
  }

  predicate OwnsSleepLock(pc: Pc) { pc.Took? || pc.Holding? || pc.Release? || pc.Unlock? }

  predicate OwnsProcLock(pc: Pc) {
    pc.SleepRelease? || pc.SleepChan? || pc.SleepState? || pc.SleepSwitch? || pc.Resume?
  }

  /** Process t has decided to sleep and has not been woken. */
  predicate Committed(p: Proc) {
    p.pc.SleepChan? || p.pc.SleepState? || p.state == Sleeping
  }

  /** Some releasesleep has cleared the lock and its wakeup scan has not passed t. */
  predicate ScanWillReach(s: Sys, t: nat) {
    && 0 <= s.lk < |s.ps|
    && ((s.ps[s.lk].pc.Scan? && s.ps[s.lk].pc.k <= t) || (s.ps[s.lk].pc.Look? && s.ps[s.lk].pc.k <= t))
  }

  predicate ProcOk(s: Sys, t: nat)
    requires t < |s.ps|
  {
    var p := s.ps[t];
    && (InLk(p.pc) <==> s.lk == t)
    && (OwnsSleepLock(p.pc) <==> s.pid == t)
    && (OwnsProcLock(p.pc) <==> p.lock == t)
    && (p.lock != -1 && p.lock != t ==> 0 <= p.lock < |s.ps| && s.ps[p.lock].pc == Look(t))
    && (p.pc.Look? ==> p.pc.k < |s.ps| && p.pc.k != t && s.ps[p.pc.k].lock == t)
    && (p.state == Sleeping ==> p.chan && (p.pc.SleepSwitch? || p.pc.Away?))
    && (p.state != Running <==> p.pc.SleepSwitch? || p.pc.Away?)
    && (p.pc.SleepState? ==> p.chan)
    && (p.pc.SleepEnter? || p.pc.SleepRelease? ==> s.locked)
    && (p.pc.Scan? || p.pc.Look? || p.pc.Done? ==> !s.locked)
    && (Committed(p) ==> s.locked || ScanWillReach(s, t))
  }

  ghost predicate Inv(s: Sys) {
    && -1 <= s.lk < |s.ps| && -1 <= s.pid < |s.ps|
    && (s.locked <==> s.pid != -1)
    && forall t :: 0 <= t < |s.ps| ==> ProcOk(s, t)
  }

  /** The steps that take lk. */
  lemma TakeKeepsInv(s: Sys, t: nat)
    requires Inv(s) && t < |s.ps| && CanGo(s, t) && (s.ps[t].pc.Acquire? || s.ps[t].pc.Reacquire? || s.ps[t].pc.Release?)
    ensures Inv(Advance(s, t))
  {
    assert ProcOk(s, t);
    forall u: nat | u < |s.ps| ensures ProcOk(Advance(s, t), u) { assert ProcOk(s, u); }
  }

  /** The steps of acquiresleep itself. */
  lemma LockKeepsInv(s: Sys, t: nat)
    requires Inv(s) && t < |s.ps| && (s.ps[t].pc.Test? || s.ps[t].pc.Took?)
    ensures Inv(Advance(s, t))
  {
    assert ProcOk(s, t);
    forall u: nat | u < |s.ps| ensures ProcOk(Advance(s, t), u) { assert ProcOk(s, u); }
  }

  /** The steps of releasesleep itself. */
  lemma UnlockKeepsInv(s: Sys, t: nat)
    requires Inv(s) && t < |s.ps| && (s.ps[t].pc.Unlock? || s.ps[t].pc.Done?)
    ensures Inv(Advance(s, t))
  {
    assert ProcOk(s, t);
    forall u: nat | u < |s.ps| ensures ProcOk(Advance(s, t), u) { assert ProcOk(s, u); }
  }

  /** The steps of sleep up to the release of lk. */
  lemma SleepInKeepsInv(s: Sys, t: nat)
    requires Inv(s) && t < |s.ps| && CanGo(s, t) && (s.ps[t].pc.SleepEnter? || s.ps[t].pc.SleepRelease? || s.ps[t].pc.SleepChan?)
    ensures Inv(Advance(s, t))
  {
    assert ProcOk(s, t);
    forall u: nat | u < |s.ps| ensures ProcOk(Advance(s, t), u) { assert ProcOk(s, u); }
  }

  /** Going to sleep, still with one's own process lock. */
  lemma SleepOutKeepsInv(s: Sys, t: nat)
    requires Inv(s) && t < |s.ps| && CanGo(s, t) && (s.ps[t].pc.SleepState? || s.ps[t].pc.SleepSwitch?)
    ensures Inv(Advance(s, t))
  {
    assert ProcOk(s, t);
    forall u: nat | u < |s.ps| ensures ProcOk(Advance(s, t), u) { assert ProcOk(s, u); }
  }

  /** Back from sleep. */
  lemma ResumeKeepsInv(s: Sys, t: nat)
    requires Inv(s) && t < |s.ps| && CanGo(s, t) && s.ps[t].pc.Resume?
    ensures Inv(Advance(s, t))
  {
    assert ProcOk(s, t);
    forall u: nat | u < |s.ps| ensures ProcOk(Advance(s, t), u) { assert ProcOk(s, u); }
  }

  lemma ScanKeepsInv(s: Sys, t: nat)
    requires Inv(s) && t < |s.ps| && CanGo(s, t) && s.ps[t].pc.Scan?
    ensures Inv(Advance(s, t))
  {
    assert ProcOk(s, t);
    forall u: nat | u < |s.ps| ensures ProcOk(Advance(s, t), u) { assert ProcOk(s, u); }
  }

  lemma LookKeepsInv(s: Sys, t: nat)
    requires Inv(s) && t < |s.ps| && CanGo(s, t) && s.ps[t].pc.Look?
    ensures Inv(Advance(s, t))
  {
    assert ProcOk(s, t);
    assert ProcOk(s, s.ps[t].pc.k);
    forall u: nat | u < |s.ps| ensures ProcOk(Advance(s, t), u) { assert ProcOk(s, u); }
  }

  lemma StepKeepsInv(s: Sys, step: Step)
    requires Inv(s) && Enabled(s, step)
    ensures Inv(Do(s, step))
  {
    var t := step.t;
    if step.Go? {
      var pc := s.ps[t].pc;
      if pc.Scan? { ScanKeepsInv(s, t); }
      else if pc.Look? { LookKeepsInv(s, t); }
      else if pc.Acquire? || pc.Reacquire? || pc.Release? { TakeKeepsInv(s, t); }
      else if pc.SleepEnter? || pc.SleepRelease? || pc.SleepChan? { SleepInKeepsInv(s, t); }
      else if pc.Resume? { ResumeKeepsInv(s, t); }
      else if OwnsProcLock(pc) { SleepOutKeepsInv(s, t); }
      else if pc.Unlock? || pc.Done? { UnlockKeepsInv(s, t); }
      else { LockKeepsInv(s, t); }
    } else {
      OtherKeepsInv(s, step);
    }
  }

  lemma OtherKeepsInv(s: Sys, step: Step)
    requires Inv(s) && Enabled(s, step) && !step.Go?
    ensures Inv(Do(s, step))
  {
    if step.SwitchTo? || step.Kill? { SwitchKeepsInv(s, step); } else { CallKeepsInv(s, step); }
  }

  lemma CallKeepsInv(s: Sys, step: Step)
    requires Inv(s) && Enabled(s, step) && (step.Call? || step.Leave?)
    ensures Inv(Do(s, step))
  {
    assert ProcOk(s, step.t);
    forall u: nat | u < |s.ps| ensures ProcOk(Do(s, step), u) { assert ProcOk(s, u); }
  }

  lemma SwitchKeepsInv(s: Sys, step: Step)
    requires Inv(s) && Enabled(s, step) && (step.SwitchTo? || step.Kill?)
    ensures Inv(Do(s, step))
  {
    assert ProcOk(s, step.t);
    forall u: nat | u < |s.ps| ensures ProcOk(Do(s, step), u) { assert ProcOk(s, u); }
  }

  lemma {:induction false} RunInv(ss: seq<Sys>, steps: seq<Step>, n: nat)
    requires IsRun(ss, steps) && n < |ss|
    ensures Inv(ss[n])
  {
    if n > 0 {
      RunInv(ss, steps, n - 1);
      assert Next(ss[n - 1], steps[n - 1], ss[n]);
      StepKeepsInv(ss[n - 1], steps[n - 1]);
    }
  }

  // ----- what it gives -----------------------------------------------------------------------

  /** At most one process holds the sleep lock, and lk->pid names it. */
  lemma MutualExclusion(ss: seq<Sys>, steps: seq<Step>, n: nat, t: nat, u: nat)
    requires IsRun(ss, steps) && n < |ss| && t < |ss[n].ps| && u < |ss[n].ps|
    requires OwnsSleepLock(ss[n].ps[t].pc)
    ensures ss[n].locked && ss[n].pid == t
    ensures OwnsSleepLock(ss[n].ps[u].pc) ==> u == t
  {
    RunInv(ss, steps, n);
    assert ProcOk(ss[n], t) && ProcOk(ss[n], u);
  }

  /** No lost wakeup: whoever sleeps on the lock does so while the lock is held, or while a
      releaser is still on its way to it. */
  lemma NoLostWakeup(ss: seq<Sys>, steps: seq<Step>, n: nat, t: nat)
    requires IsRun(ss, steps) && n < |ss| && t < |ss[n].ps| && ss[n].ps[t].state == Sleeping
    ensures ss[n].ps[t].chan && (ss[n].locked || ScanWillReach(ss[n], t))
  {
    RunInv(ss, steps, n);
    assert ProcOk(ss[n], t);
  }

  /** So when the lock is free and nobody is inside its spin lock, nobody sleeps on it. */
  lemma FreeMeansAwake(ss: seq<Sys>, steps: seq<Step>, n: nat, t: nat)
    requires IsRun(ss, steps) && n < |ss| && t < |ss[n].ps| && !ss[n].locked && ss[n].lk == -1
    ensures ss[n].ps[t].state != Sleeping
  {
    RunInv(ss, steps, n);
    assert ProcOk(ss[n], t);
  }

  predicate Stuck(s: Sys) {
    forall t: nat | t < |s.ps| :: !Enabled(s, Go(t)) && !Enabled(s, SwitchTo(t))
  }

  /** A process lock held by another process is held by a releaser looking at it. */
  lemma ForeignLock(s: Sys, k: nat)
    requires Inv(s) && k < |s.ps| && s.ps[k].lock != -1 && s.ps[k].lock != k
    ensures 0 <= s.lk < |s.ps| && s.lk == s.ps[k].lock && s.ps[s.lk].pc == Look(k)
  {
    assert ProcOk(s, k);
    assert ProcOk(s, s.ps[k].lock);
  }

  /** Whoever is inside lk can go on, or waits for a process lock whose holder can. */
  lemma LkHolderMoves(s: Sys)
    requires Inv(s) && s.lk != -1
    ensures !Stuck(s)
  {
    var r := s.lk as nat;
    assert ProcOk(s, r);
    if !Enabled(s, Go(r)) {
      if s.ps[r].pc.Scan? {
        var k := s.ps[r].pc.k;
        assert ProcOk(s, k);
        if s.ps[k].lock != k { ForeignLock(s, k); }
        assert Enabled(s, Go(k));
      } else {
        ForeignLock(s, r);
      }
    }
  }

  /** No deadlock: when no process can move, every process is idle, holds the sleep lock, or
      sleeps on it; and if anyone sleeps, there is a holder whose releasesleep is awaited. */
  lemma StuckOnlyBehindHolder(ss: seq<Sys>, steps: seq<Step>, n: nat, t: nat)
    requires IsRun(ss, steps) && n < |ss| && Stuck(ss[n]) && t < |ss[n].ps|
    ensures var p := ss[n].ps[t]; p.pc.Idle? || p.pc.Holding? || (p.pc.Away? && p.state == Sleeping)
    ensures ss[n].ps[t].pc.Away? ==> 0 <= ss[n].pid < |ss[n].ps| && ss[n].ps[ss[n].pid].pc.Holding?
  {
    var s := ss[n];
    RunInv(ss, steps, n);
    if s.lk != -1 { LkHolderMoves(s); }
    MustRest(s, t);
    if s.pid != -1 { MustRest(s, s.pid); assert ProcOk(s, s.pid); }
  }

  lemma MustRest(s: Sys, t: nat)
    requires Inv(s) && Stuck(s) && s.lk == -1 && t < |s.ps|
    ensures var p := s.ps[t]; p.pc.Idle? || p.pc.Holding? || (p.pc.Away? && p.state == Sleeping)
    ensures s.ps[t].pc.Away? ==> s.locked
  {
    assert ProcOk(s, t);
    assert !Enabled(s, Go(t)) && !Enabled(s, SwitchTo(t));
    if s.ps[t].lock != -1 && s.ps[t].lock != t {
      ForeignLock(s, t);
    }
  }
}
