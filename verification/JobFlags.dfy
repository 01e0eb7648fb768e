/** What a job's Stopped flag says (c-shell/src/bg.c): the last status reported of each process,
    unless the second sweep overtook the queue. */
module JobFlags {
  import opened Basics
  import opened JobTable
  import opened JobRuns

  /** The last stop or continue of p among the events: whether it was a stop. */
  function Last(es: seq<Event>, p: int): Option<bool> {
    if es == [] then None else
      var e := es[|es| - 1];
      if e.pid == p && !IsExit(e.st) then Some(e.st.Stopped?) else Last(es[..|es| - 1], p)
  }

  lemma LastSnoc(es: seq<Event>, e: Event, p: int)
    ensures Last(es + [e], p) == if e.pid == p && !IsExit(e.st) then Some(e.st.Stopped?) else Last(es, p)
  {
    assert (es + [e])[..|es|] == es;
  }

  lemma {:induction false} LastOfTwo(a: seq<Event>, b: seq<Event>, p: int)
    ensures Last(a + b, p) == if Last(b, p).Some? then Last(b, p) else Last(a, p)
  {
    if b == [] {
      assert a + b == a;
    } else {
      var b', e := b[..|b| - 1], b[|b| - 1];
      LastOfTwo(a, b', p);
      LastSnoc(a + b', e, p);
      assert a + b == a + b' + [e];
    }
  }

  // ----- what a run reports and what it writes into the table -----------------------------------------

  /** A job starts with a status for each of its processes. */
  function Births(pids: seq<int>, stopped: bool): (es: seq<Event>)
    ensures |es| == |pids| && forall k :: 0 <= k < |pids| ==> es[k] == Event(pids[k], if stopped then Stopped else Continued)
  {
    seq(|pids|, k requires 0 <= k < |pids| => Event(pids[k], if stopped then Stopped else Continued))
  }

  lemma {:induction false} LastBirth(pids: seq<int>, stopped: bool, p: int)
    ensures Last(Births(pids, stopped), p) == if p in pids then Some(stopped) else None
  {
    if pids != [] {
      var rest := pids[..|pids| - 1];
      LastBirth(rest, stopped, p);
      assert Births(pids, stopped)[..|pids| - 1] == Births(rest, stopped);
      assert pids == rest + [pids[|pids| - 1]];
    }
  }

  function Begun(s: State, pids: seq<int>, stopped: bool): seq<Event> {
    if pids == [] || |s.t.jobs| >= MAX_BG_JOBS then [] else Births(Tracked16(pids), stopped)
  }

  /** The statuses waitpid, or the launch, reports in a step. */
  function Reports(s: State, step: Step): seq<Event> {
    match step
    case Launch(pids, stopped) => Begun(s, pids, stopped)
    case Collect(e) => [e]
    case Sweep(e) => [e]
    case _ => []
  }

  /** The statuses that reach the job table in a step. */
  function Applies(s: State, step: Step): seq<Event> {
    match step
    case Launch(pids, stopped) => Begun(s, pids, stopped)
    case RecordNext => s.batch[..if s.batch == [] then 0 else 1]
    case Sweep(e) => [e]
    case _ => []
  }

  ghost function Reported(ss: seq<State>, steps: seq<Step>, k: nat): seq<Event>
    requires IsRun(ss, steps) && k <= |steps|
  {
    if k == 0 then [] else Reported(ss, steps, k - 1) + Reports(ss[k - 1], steps[k - 1])
  }

  ghost function Applied(ss: seq<State>, steps: seq<Step>, k: nat): seq<Event>
    requires IsRun(ss, steps) && k <= |steps|
  {
    if k == 0 then [] else Applied(ss, steps, k - 1) + Applies(ss[k - 1], steps[k - 1])
  }

  /** Whether a step leaves p overtaken: its latest status swept up while the queue still holds a
      contrary one, which the next drain will write over it. */
  predicate Overtakes(s: State, step: Step, p: int, before: bool) {
    match step
    case Launch(pids, stopped) => before && Last(Begun(s, pids, stopped), p).None?
    case Collect(e) => before && (e.pid != p || IsExit(e.st))
    case Sweep(e) => if e.pid == p && !IsExit(e.st) then Last(s.queue, p) == Some(!e.st.Stopped?) else before
    case _ => before
  }

  ghost predicate Overtaken(ss: seq<State>, steps: seq<Step>, k: nat, p: int)
    requires IsRun(ss, steps) && k <= |steps|
  {
    k > 0 && Overtakes(ss[k - 1], steps[k - 1], p, Overtaken(ss, steps, k - 1, p))
  }

  // ----- the table follows what reaches it ---------------------------------------------------------------

  ghost predicate FlagsAre(jobs: seq<Job>, es: seq<Event>) {
    forall i, x :: 0 <= i < |jobs| && 0 <= x < |jobs[i].procs| ==>
      Last(es, jobs[i].procs[x].pid) == Some(jobs[i].procs[x].stopped)
  }

  /** A process is in one place of the table. */
  lemma OnePlace(t: Table, i: int, k: int, a: int, x: int)
    requires Good(t) && 0 <= i < |t.jobs| && 0 <= k < |t.jobs[i].procs| && 0 <= a < |t.jobs| && 0 <= x < |t.jobs[a].procs|
    requires t.jobs[a].procs[x].pid == t.jobs[i].procs[k].pid
    ensures a == i && x == k
  {
    assert JobOk(t.h, t.jobs[a]) && JobOk(t.h, t.jobs[i]);
    assert HasProc(t.jobs[a].procs, t.jobs[a].procs[x].pid) && HasProc(t.jobs[i].procs, t.jobs[i].procs[k].pid);
  }

  lemma FlagFollows(t: Table, i: int, k: int, st: Status, es: seq<Event>)
    requires Good(t) && 0 <= i < |t.jobs| && 0 <= k < |t.jobs[i].procs| && !IsExit(st) && FlagsAre(t.jobs, es)
    ensures FlagsAre(t.jobs[i := Flagged(t.jobs[i], k, st.Stopped?)], es + [Event(t.jobs[i].procs[k].pid, st)])
  {
    var e, jobs' := Event(t.jobs[i].procs[k].pid, st), t.jobs[i := Flagged(t.jobs[i], k, st.Stopped?)];
    forall a, x | 0 <= a < |jobs'| && 0 <= x < |jobs'[a].procs|
      ensures Last(es + [e], jobs'[a].procs[x].pid) == Some(jobs'[a].procs[x].stopped)
    {
      LastSnoc(es, e, t.jobs[a].procs[x].pid);
      if t.jobs[a].procs[x].pid == e.pid { OnePlace(t, i, k, a, x); }
    }
  }

  /** An end takes a process away and changes no flag. */
  lemma ExitFollows(jobs: seq<Job>, jobs': seq<Job>, e: Event, es: seq<Event>)
    requires IsExit(e.st) && FlagsAre(jobs, es)
    requires forall a, x :: 0 <= a < |jobs'| && 0 <= x < |jobs'[a].procs| ==> SomePlace(jobs, jobs'[a].procs[x])
    ensures FlagsAre(jobs', es + [e])
  {
    forall a, x | 0 <= a < |jobs'| && 0 <= x < |jobs'[a].procs|
      ensures Last(es + [e], jobs'[a].procs[x].pid) == Some(jobs'[a].procs[x].stopped)
    {
      assert SomePlace(jobs, jobs'[a].procs[x]);
      LastSnoc(es, e, jobs'[a].procs[x].pid);
    }
  }

  ghost predicate SomePlace(jobs: seq<Job>, p: Proc) {
    exists a, x :: 0 <= a < |jobs| && 0 <= x < |jobs[a].procs| && jobs[a].procs[x] == p
  }

  lemma InPlace(jobs: seq<Job>, a: int, x: int)
    requires 0 <= a < |jobs| && 0 <= x < |jobs[a].procs|
    ensures SomePlace(jobs, jobs[a].procs[x])
  {
  }

  lemma ShrunkPlaces(jobs: seq<Job>, i: int, k: int, st: Status)
    requires 0 <= i < |jobs| && 0 <= k < |jobs[i].procs|
    ensures var jobs' := jobs[i := Shrunk(jobs[i], k, st)];
      forall a, x :: 0 <= a < |jobs'| && 0 <= x < |jobs'[a].procs| ==> SomePlace(jobs, jobs'[a].procs[x])
  {
    var jobs' := jobs[i := Shrunk(jobs[i], k, st)];
    forall a, x | 0 <= a < |jobs'| && 0 <= x < |jobs'[a].procs| ensures SomePlace(jobs, jobs'[a].procs[x]) {
      InPlace(jobs, a, if a == i && x >= k then x + 1 else x);
    }
  }

  lemma DropPlaces(jobs: seq<Job>, i: int)
    requires 0 <= i < |jobs|
    ensures forall a, x :: 0 <= a < |Drop(jobs, i)| && 0 <= x < |Drop(jobs, i)[a].procs| ==>
      SomePlace(jobs, Drop(jobs, i)[a].procs[x])
  {
    var jobs' := Drop(jobs, i);
    forall a, x | 0 <= a < |jobs'| && 0 <= x < |jobs'[a].procs| ensures SomePlace(jobs, jobs'[a].procs[x]) {
      InPlace(jobs, if a < i then a else a + 1, x);
    }
  }

  /** A process the table does not have changes no flag. */
  lemma StrangerFollows(jobs: seq<Job>, e: Event, es: seq<Event>)
    requires FlagsAre(jobs, es) && forall a :: 0 <= a < |jobs| ==> !HasProc(jobs[a].procs, e.pid)
    ensures FlagsAre(jobs, es + [e])
  {
    forall a, x | 0 <= a < |jobs| && 0 <= x < |jobs[a].procs|
      ensures Last(es + [e], jobs[a].procs[x].pid) == Some(jobs[a].procs[x].stopped)
    {
      assert !HasProc(jobs[a].procs, e.pid);
      LastSnoc(es, e, jobs[a].procs[x].pid);
    }
  }

  /** Recording a status. */
  lemma RecordFollows(t: Table, pid: int, st: Status, es: seq<Event>)
    requires Good(t) && FlagsAre(t.jobs, es)
    ensures FlagsAre(Record(t, pid, st).jobs, es + [Event(pid, st)])
  {
    hide Good, FlagsAre, Shrunk, Flagged;
    var i := FindJob(t.jobs, pid, 0);
    if i == |t.jobs| {
      StrangerFollows(t.jobs, Event(pid, st), es);
    } else {
      FindsProc(t.jobs[i].procs, pid);
      var k := FindProc(t.jobs[i].procs, pid, 0);
      if !IsExit(st) {
        FlagFollows(t, i, k, st, es);
      } else if |t.jobs[i].procs| > 1 {
        ShrunkPlaces(t.jobs, i, k, st);
        ExitFollows(t.jobs, t.jobs[i := Shrunk(t.jobs[i], k, st)], Event(pid, st), es);
      } else {
        DropPlaces(t.jobs, i);
        ExitFollows(t.jobs, Drop(t.jobs, i), Event(pid, st), es);
      }
    }
  }

  lemma LaunchFollows(t: Table, pids: seq<int>, stopped: bool, n: int, es: seq<Event>)
    requires Good(t) && FlagsAre(t.jobs, es) && pids != [] && Fresh(t.h, pids)
    ensures FlagsAre(t.jobs + [NewJob(n, pids, stopped)], es + Births(pids, stopped))
  {
    var jobs', es' := t.jobs + [NewJob(n, pids, stopped)], es + Births(pids, stopped);
    forall a, x | 0 <= a < |jobs'| && 0 <= x < |jobs'[a].procs|
      ensures Last(es', jobs'[a].procs[x].pid) == Some(jobs'[a].procs[x].stopped)
    {
      var p := jobs'[a].procs[x].pid;
      LastOfTwo(es, Births(pids, stopped), p);
      LastBirth(pids, stopped, p);
      if a < |t.jobs| {
        assert JobOk(t.h, t.jobs[a]) && HasProc(t.jobs[a].procs, p);
      }
    }
  }

  lemma StepFollows(s: State, step: Step, s': State, es: seq<Event>)
    requires RunInv(s) && Next(s, step, s') && FlagsAre(s.t.jobs, es)
    ensures FlagsAre(s'.t.jobs, es + Applies(s, step))
  {
    hide Good, FlagsAre, Fresh, Distinct, Record, NewJob, Births;
    match step
    case Launch(pids, stopped) =>
      if pids != [] && |s.t.jobs| < MAX_BG_JOBS {
        PrefixFresh(s.t.h, pids);
        LaunchFollows(s.t, Tracked16(pids), stopped, s.t.next + 1, es);
      } else {
        assert es + [] == es;
      }
    case RecordNext =>
      assert s.batch[..1] == [Event(s.batch[0].pid, s.batch[0].st)];
      RecordFollows(s.t, s.batch[0].pid, s.batch[0].st, es);
    case Sweep(e) =>
      assert [e] == [Event(e.pid, e.st)];
      RecordFollows(s.t, e.pid, e.st, es);
    case _ => assert es + [] == es;
  }

  lemma Empty(s: State)
    requires Init(s)
    ensures FlagsAre(s.t.jobs, []) && QueueBorn(s) && forall p :: Agree([], s, [], p, false)
  {
    forall p ensures Agree([], s, [], p, false) { assert [] + (s.batch + s.queue) == []; }
  }

  /** The flag of every process in the table is the last status that reached the table. */
  lemma {:induction false} FlagsFollow(ss: seq<State>, steps: seq<Step>, k: nat)
    requires IsRun(ss, steps) && k <= |steps|
    ensures FlagsAre(ss[k].t.jobs, Applied(ss, steps, k))
  {
    hide FlagsAre, RunInv, Next, Applies, Init;
    if k == 0 {
      Empty(ss[0]);
    } else {
      FlagsFollow(ss, steps, k - 1);
      ReachedInv(ss, steps, k - 1);
      assert Next(ss[k - 1], steps[k - 1], ss[k]);
      StepFollows(ss[k - 1], steps[k - 1], ss[k], Applied(ss, steps, k - 1));
    }
  }

  // ----- what reaches the table, against what was reported ------------------------------------------------

  /** Whoever waits in the queue belongs to a job. */
  ghost predicate QueueBorn(s: State) {
    forall j :: 0 <= j < |s.batch + s.queue| ==> Born(s.t.h, (s.batch + s.queue)[j].pid)
  }

  lemma StillBorn(s: State, step: Step, s': State, p: int)
    requires RunInv(s) && Next(s, step, s') && Born(s.t.h, p)
    ensures Born(s'.t.h, p)
  {
    var n :| n in s.t.h.born && p in s.t.h.born[n];
    NumbersUsed(s.t);
    match step {
      case RecordNext => RecordHistory(s.t, s.batch[0].pid, s.batch[0].st);
      case Sweep(e) => RecordHistory(s.t, e.pid, e.st);
      case _ =>
    }
    assert n in s'.t.h.born && p in s'.t.h.born[n];
  }

  lemma QueueStep(s: State, step: Step, s': State)
    requires RunInv(s) && Next(s, step, s') && QueueBorn(s)
    ensures QueueBorn(s')
  {
    var q, q' := s.batch + s.queue, s'.batch + s'.queue;
    forall j | 0 <= j < |q'| ensures Born(s'.t.h, q'[j].pid) {
      if step.Collect? && j == |q| {
        StillBorn(s, step, s', step.e.pid);
      } else {
        var i := if step.RecordNext? then j + 1 else j;
        assert q'[j] == q[i] && Born(s.t.h, q[i].pid);
        StillBorn(s, step, s', q[i].pid);
      }
    }
  }

  lemma {:induction false} QueueOfRun(ss: seq<State>, steps: seq<Step>, k: nat)
    requires IsRun(ss, steps) && k <= |steps|
    ensures QueueBorn(ss[k])
  {
    hide RunInv, QueueBorn, Next, Init;
    if k == 0 {
      Empty(ss[0]);
    } else {
      QueueOfRun(ss, steps, k - 1);
      ReachedInv(ss, steps, k - 1);
      assert Next(ss[k - 1], steps[k - 1], ss[k]);
      QueueStep(ss[k - 1], steps[k - 1], ss[k]);
    }
  }

  lemma {:induction false} LastNone(q: seq<Event>, p: int)
    requires forall j :: 0 <= j < |q| ==> q[j].pid != p
    ensures Last(q, p) == None
  {
    if q != [] { LastNone(q[..|q| - 1], p); }
  }

  /** p has no event in the queue when a job of which it is a process starts. */
  lemma NewcomerNotQueued(s: State, pids: seq<int>, p: int)
    requires QueueBorn(s) && Fresh(s.t.h, pids) && p in pids
    ensures Last(s.batch + s.queue, p) == None
  {
    var q := s.batch + s.queue;
    forall j | 0 <= j < |q| ensures q[j].pid != p { assert Born(s.t.h, q[j].pid); }
    LastNone(q, p);
  }

  /** The status p will have in the table once the queue is recorded. */
  ghost function Coming(es: seq<Event>, s: State, p: int): Option<bool> { Last(es + (s.batch + s.queue), p) }

  lemma LaunchComing(s: State, pids: seq<int>, stopped: bool, s': State, a: seq<Event>, p: int)
    requires RunInv(s) && QueueBorn(s) && Next(s, Launch(pids, stopped), s')
    ensures var b := Begun(s, pids, stopped);
      Coming(a + b, s', p) == if Last(b, p).Some? then Last(b, p) else Coming(a, s, p)
  {
    hide RunInv, QueueBorn, Distinct, Fresh;
    var b, w := Begun(s, pids, stopped), s.batch + s.queue;
    LastOfTwo(a + b, w, p);
    LastOfTwo(a, b, p);
    LastOfTwo(a, w, p);
    if Last(b, p).Some? {
      LastBirth(Tracked16(pids), stopped, p);
      assert p in Tracked16(pids) && p in pids;
      NewcomerNotQueued(s, pids, p);
    }
  }

  lemma SweepComing(s: State, e: Event, s': State, a: seq<Event>, p: int)
    requires Next(s, Sweep(e), s')
    ensures Coming(a + [e], s', p) ==
      if e.pid == p && !IsExit(e.st) then (if Last(s.queue, p).Some? then Last(s.queue, p) else Some(e.st.Stopped?))
      else Coming(a, s, p)
  {
    hide Record;
    var w := s.batch + s.queue;
    assert w == s.queue && s'.batch + s'.queue == w;
    LastOfTwo(a + [e], w, p);
    LastOfTwo(a, w, p);
    LastSnoc(a, e, p);
  }

  lemma OtherComing(s: State, step: Step, s': State, a: seq<Event>, p: int)
    requires Next(s, step, s') && (step.Collect? || step.Take? || step.RecordNext?)
    ensures Coming(a + Applies(s, step), s', p) ==
      if step.Collect? && step.e.pid == p && !IsExit(step.e.st) then Some(step.e.st.Stopped?) else Coming(a, s, p)
  {
    hide Record;
    var w, w' := s.batch + s.queue, s'.batch + s'.queue;
    match step
    case Collect(e) =>
      assert a + [] + w' == a + w + [e];
      LastSnoc(a + w, e, p);
    case Take => assert a + [] + w' == a + w;
    case RecordNext => assert a + s.batch[..1] + w' == a + w;
  }

  /** a and r are the same as far as p is concerned, unless p was overtaken. */
  ghost predicate Agree(a: seq<Event>, s: State, r: seq<Event>, p: int, over: bool) {
    && (Coming(a, s, p) == Last(r, p) <==> !over)
    && (Coming(a, s, p).Some? <==> Last(r, p).Some?)
  }

  lemma AgreeStep(s: State, step: Step, s': State, a: seq<Event>, r: seq<Event>, p: int, over: bool)
    requires RunInv(s) && QueueBorn(s) && Next(s, step, s') && Agree(a, s, r, p, over)
    ensures Agree(a + Applies(s, step), s', r + Reports(s, step), p, Overtakes(s, step, p, over))
  {
    hide Last, Coming, RunInv, QueueBorn, Next, Begun;
    LastOfTwo(r, Reports(s, step), p);
    match step {
      case Launch(pids, stopped) => LaunchComing(s, pids, stopped, s', a, p);
      case Sweep(e) =>
        SweepComing(s, e, s', a, p);
        LastOne(e, p);
        if e.pid == p && !IsExit(e.st) {
          match Last(s.queue, p)
          case None =>
          case Some(v) => assert Some(v) == Some(e.st.Stopped?) <==> Some(v) != Some(!e.st.Stopped?);
        } else {
          assert Last(r + [e], p) == Last(r, p);
          assert Coming(a + [e], s', p) == Coming(a, s, p);
        }
      case Collect(e) =>
        OtherComing(s, step, s', a, p);
        LastOne(e, p);
      case _ =>
        OtherComing(s, step, s', a, p);
        LastEmpty(p);
    }
  }

  /** What p will have once the queue is recorded is what was last reported of it, exactly when no
      sweep overtook. */
  lemma {:induction false} ComingIsReported(ss: seq<State>, steps: seq<Step>, k: nat, p: int)
    requires IsRun(ss, steps) && k <= |steps|
    ensures Agree(Applied(ss, steps, k), ss[k], Reported(ss, steps, k), p, Overtaken(ss, steps, k, p))
  {
    hide Agree, RunInv, QueueBorn, Next, Applies, Reports, Overtakes, Init;
    if k == 0 {
      Empty(ss[0]);
    } else {
      ComingIsReported(ss, steps, k - 1, p);
      ReachedInv(ss, steps, k - 1);
      QueueOfRun(ss, steps, k - 1);
      assert Next(ss[k - 1], steps[k - 1], ss[k]);
      AgreeStep(ss[k - 1], steps[k - 1], ss[k], Applied(ss, steps, k - 1), Reported(ss, steps, k - 1), p,
                Overtaken(ss, steps, k - 1, p));
    }
  }

  lemma LastOne(e: Event, p: int)
    ensures Last([e], p) == if e.pid == p && !IsExit(e.st) then Some(e.st.Stopped?) else None
  {
  }

  lemma LastEmpty(p: int)
    ensures Last([], p) == None
  {
  }

  /** In every state of every run, once no status of a process waits in the queue, its flag is the
      last status reported of it if and only if no sweep overtook the queue. */
  lemma FlagIsLastReport(ss: seq<State>, steps: seq<Step>, k: nat, i: int, x: int)
    requires IsRun(ss, steps) && k <= |steps| && 0 <= i < |ss[k].t.jobs| && 0 <= x < |ss[k].t.jobs[i].procs|
    requires Last(ss[k].batch + ss[k].queue, ss[k].t.jobs[i].procs[x].pid).None?
    ensures var p := ss[k].t.jobs[i].procs[x];
      && Last(Reported(ss, steps, k), p.pid).Some?
      && (p.stopped == Last(Reported(ss, steps, k), p.pid).value <==> !Overtaken(ss, steps, k, p.pid))
  {
    var p := ss[k].t.jobs[i].procs[x];
    FlagsFollow(ss, steps, k);
    ComingIsReported(ss, steps, k, p.pid);
    LastOfTwo(Applied(ss, steps, k), ss[k].batch + ss[k].queue, p.pid);
  }

  /** So a job says Stopped exactly when the last report of one of its processes was a stop,
      provided none was overtaken. */
  lemma JobFlagIsRight(ss: seq<State>, steps: seq<Step>, k: nat, i: int)
    requires IsRun(ss, steps) && k <= |steps| && 0 <= i < |ss[k].t.jobs|
    requires forall x :: 0 <= x < |ss[k].t.jobs[i].procs| ==>
      Last(ss[k].batch + ss[k].queue, ss[k].t.jobs[i].procs[x].pid).None? && !Overtaken(ss, steps, k, ss[k].t.jobs[i].procs[x].pid)
    ensures var j := ss[k].t.jobs[i];
      j.stopped <==> exists x :: 0 <= x < |j.procs| && Last(Reported(ss, steps, k), j.procs[x].pid) == Some(true)
  {
    var j := ss[k].t.jobs[i];
    TableInOrder(ss, steps, k, i);
    forall x | 0 <= x < |j.procs| ensures j.procs[x].stopped <==> Last(Reported(ss, steps, k), j.procs[x].pid) == Some(true) {
      FlagIsLastReport(ss, steps, k, i, x);
    }
  }

  /** It happens: a process stops, which the handler queues, and continues, which the second sweep
      reports first.  Draining the queue then leaves the job marked as stopped. */
  lemma SweepOvertakes() returns (ss: seq<State>, steps: seq<Step>)
    ensures IsRun(ss, steps) && |steps| == 5 && |ss[5].t.jobs| == 1 && |ss[5].t.jobs[0].procs| == 1
    ensures ss[5].batch == [] && ss[5].queue == [] && ss[5].t.jobs[0].stopped
    ensures Last(Reported(ss, steps, 5), ss[5].t.jobs[0].procs[0].pid) == Some(false)
  {
    var stop, go := Event(1, Stopped), Event(1, Continued);
    var h := Hist(map[1 := [1]], map[], []);
    var j := NewJob(1, [1], false);
    var s0 := State(Table([], 0, Hist(map[], map[], [])), [], [], [], [], {});
    var s1 := s0.(t := Table([j], 1, h));
    assert Next(s0, Launch([1], false), s1) by { assert Tracked16([1]) == [1] && Started(s0.t.h, 1, [1]) == h && [] + [j] == [j]; }
    var s2 := s1.(queue := [stop], collected := [stop]);
    assert Next(s1, Collect(stop), s2) by { assert 1 in h.born && 1 in h.born[1]; assert [] + [stop] == [stop]; }
    assert Flagged(j, 0, false) == j by { assert j.procs[0 := j.procs[0].(stopped := false)] == j.procs; }
    assert Record(s2.t, 1, Continued) == s2.t by { RecordOnly(s2.t, j, Continued); assert [j][0 := j] == [j]; }
    assert Next(s2, Sweep(go), s2);
    var s3 := s2.(batch := [stop], queue := []);
    assert Next(s2, Take, s3);
    var j' := Flagged(j, 0, true);
    var s4 := s3.(t := s3.t.(jobs := [j']), batch := [], recorded := [stop]);
    assert Record(s3.t, 1, Stopped) == s4.t by { RecordOnly(s3.t, j, Stopped); assert [j][0 := j'] == [j']; }
    assert Next(s3, RecordNext, s4) by { assert [stop][1..] == [] && [] + [stop] == [stop]; }
    ss, steps := [s0, s1, s2, s2, s3, s4], [Launch([1], false), Collect(stop), Sweep(go), Take, RecordNext];
    hide Next;
    assert IsRun(ss, steps);
    assert j'.procs[0].stopped;
    ReportsOfExample(ss, steps, stop, go);
  }

  lemma RecordOnly(t: Table, j: Job, st: Status)
    requires t.jobs == [j] && j == NewJob(1, [1], false) && !IsExit(st)
    ensures Record(t, 1, st) == t.(jobs := t.jobs[0 := Flagged(j, 0, st.Stopped?)])
  {
    assert j.procs[0].pid == 1 && HasProc(t.jobs[0].procs, 1);
  }

  lemma ReportsOfExample(ss: seq<State>, steps: seq<Step>, stop: Event, go: Event)
    requires IsRun(ss, steps) && steps == [Launch([1], false), Collect(stop), Sweep(go), Take, RecordNext]
    requires go == Event(1, Continued)
    ensures Last(Reported(ss, steps, 5), 1) == Some(false)
  {
    hide IsRun;
    var r := Reported(ss, steps, 2);
    assert Reported(ss, steps, 3) == r + [go];
    assert Reported(ss, steps, 4) == r + [go] + [];
    assert Reported(ss, steps, 5) == r + [go] + [] + [];
    assert r + [go] + [] + [] == r + [go];
    LastSnoc(r, go, 1);
  }
}
