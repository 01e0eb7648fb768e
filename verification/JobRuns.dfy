/** The job table under every interleaving of launches, the SIGCHLD handler and the drain
    (c-shell/src/bg.c). */
module JobRuns {
  import opened Basics
  import opened JobTable

  const MAX_WATCH: nat := MAX_BG_JOBS * MAX_JOB_PROCS

  /** A status collected by waitpid. */
  datatype Event = Event(pid: int, st: Status)

  /** The table; the handler's queue; the part of the queue that check_bg_jobs() has copied out and
      not yet recorded.  The rest is history: the events that went into the queue and those
      recorded from it, and the processes whose end waitpid has reported. */
  datatype State = State(t: Table, queue: seq<Event>, batch: seq<Event>,
                         collected: seq<Event>, recorded: seq<Event>, ended: set<int>)

  datatype Step =
    | Launch(pids: seq<int>, stopped: bool)
    | Collect(e: Event)
    | Take
    | RecordNext
    | Sweep(e: Event)

  ghost predicate Born(h: Hist, pid: int) { exists n :: n in h.born && pid in h.born[n] }

  function Tracked16(pids: seq<int>): seq<int> { if |pids| > MAX_JOB_PROCS then pids[..MAX_JOB_PROCS] else pids }

  function NowEnded(ended: set<int>, e: Event): set<int> { if IsExit(e.st) then ended + {e.pid} else ended }

  ghost predicate Next(s: State, step: Step, s': State) {
    match step
    // add_job(): refused when there is no process or no room; process ids are new.
    case Launch(pids, stopped) =>
      var n := s.t.next + 1;
      && Distinct(pids) && Fresh(s.t.h, pids) && (forall p :: p in pids ==> p !in s.ended)
      && s' == (if pids == [] || |s.t.jobs| >= MAX_BG_JOBS then s else
                  s.(t := Table(s.t.jobs + [NewJob(n, Tracked16(pids), stopped)], n, Started(s.t.h, n, Tracked16(pids)))))
    // The handler: only with room in the queue, only for watched processes.
    case Collect(e) =>
      && |s.queue| < MAX_WATCH && Born(s.t.h, e.pid) && e.pid !in s.ended
      && s' == s.(queue := s.queue + [e], collected := s.collected + [e], ended := NowEnded(s.ended, e))
    // check_bg_jobs(): the copy, with SIGCHLD blocked.
    case Take =>
      s.batch == [] && s' == s.(batch := s.queue, queue := [])
    case RecordNext =>
      && s.batch != []
      && s' == s.(t := Record(s.t, s.batch[0].pid, s.batch[0].st), batch := s.batch[1..],
                  recorded := s.recorded + [s.batch[0]])
    // The second sweep: any child at all.
    case Sweep(e) =>
      && s.batch == [] && e.pid !in s.ended
      && s' == s.(t := Record(s.t, e.pid, e.st), ended := NowEnded(s.ended, e))
  }

  ghost predicate Init(s: State) {
    s == State(Table([], 0, Hist(map[], map[], [])), [], [], [], [], {})
  }

  /** The exit of pid waits in the queue. */
  ghost predicate Waiting(q: seq<Event>, pid: int) {
    exists k :: 0 <= k < |q| && q[k].pid == pid && IsExit(q[k].st)
  }

  ghost predicate OneExitEach(q: seq<Event>) {
    forall a, b :: 0 <= a < b < |q| && IsExit(q[a].st) && IsExit(q[b].st) ==> q[a].pid != q[b].pid
  }

  /** Events wait in order, none lost; an end that waitpid reported is recorded or waits, not both. */
  ghost predicate RunInv(s: State) {
    var q := s.batch + s.queue;
    && Good(s.t)
    && s.collected == s.recorded + q
    && OneExitEach(q)
    && (forall p :: p in s.t.h.gone ==> p in s.ended && !Waiting(q, p))
    && (forall p :: Waiting(q, p) ==> p in s.ended && Born(s.t.h, p))
    && (forall p :: p in s.ended && Born(s.t.h, p) ==> p in s.t.h.gone || Waiting(q, p))
  }

  lemma InitInv(s: State)
    requires Init(s)
    ensures RunInv(s)
  {
  }

  lemma LaunchKeeps(s: State, pids: seq<int>, stopped: bool, s': State)
    requires RunInv(s) && Next(s, Launch(pids, stopped), s')
    ensures RunInv(s')
  {
    hide Inv, Waiting, OneExitEach, Born, Fresh, Distinct, Tracked16;
    if pids != [] && |s.t.jobs| < MAX_BG_JOBS {
      var n, ps := s.t.next + 1, Tracked16(pids);
      PrefixFresh(s.t.h, pids);
      StartKeeps(s.t.jobs, s.t.next, s.t.h, ps, stopped);
      NumbersUsed(s.t);
      forall p ensures Born(s'.t.h, p) <==> Born(s.t.h, p) || p in ps { BornStarted(s.t.h, n, ps, p); }
    }
  }

  lemma PrefixFresh(h: Hist, pids: seq<int>)
    requires pids != [] && Distinct(pids) && Fresh(h, pids)
    ensures var ps := Tracked16(pids);
      1 <= |ps| <= MAX_JOB_PROCS && Distinct(ps) && Fresh(h, ps) && forall p :: p in ps ==> p in pids
  {
    assert forall p :: p in Tracked16(pids) ==> p in pids;
  }

  lemma NumbersUsed(t: Table)
    requires Good(t)
    ensures t.next + 1 !in t.h.born
  {
  }

  lemma BornStarted(h: Hist, n: int, ps: seq<int>, p: int)
    requires n !in h.born
    ensures Born(Started(h, n, ps), p) <==> Born(h, p) || p in ps
  {
    var h' := Started(h, n, ps);
    if Born(h, p) {
      var m :| m in h.born && p in h.born[m];
      assert m in h'.born && p in h'.born[m];
    }
    if p in ps { assert n in h'.born && p in h'.born[n]; }
  }

  lemma CollectKeeps(s: State, e: Event, s': State)
    requires RunInv(s) && Next(s, Collect(e), s')
    ensures RunInv(s')
  {
    hide Good, Born;
    var q, q' := s.batch + s.queue, s'.batch + s'.queue;
    assert q' == q + [e];
    assert s.recorded + q + [e] == s.recorded + q';
    forall p ensures Waiting(q', p) <==> Waiting(q, p) || (p == e.pid && IsExit(e.st)) { WaitingOneMore(q, e, p); }
    assert OneExitEach(q') by {
      forall a | 0 <= a < |q| && IsExit(q[a].st) && IsExit(e.st) ensures q[a].pid != e.pid { assert Waiting(q, q[a].pid); }
    }
  }

  lemma WaitingOneMore(q: seq<Event>, e: Event, p: int)
    ensures Waiting(q + [e], p) <==> Waiting(q, p) || (p == e.pid && IsExit(e.st))
  {
    var q' := q + [e];
    assert q'[|q|] == e;
    if Waiting(q, p) {
      var k :| 0 <= k < |q| && q[k].pid == p && IsExit(q[k].st);
      assert q'[k] == q[k];
    }
  }

  lemma TakeKeeps(s: State, s': State)
    requires RunInv(s) && Next(s, Take, s')
    ensures RunInv(s')
  {
    assert s'.batch + s'.queue == s.batch + s.queue;
  }

  lemma WaitingRest(q: seq<Event>, p: int)
    requires q != [] && OneExitEach(q)
    ensures OneExitEach(q[1..])
    ensures Waiting(q[1..], p) <==> Waiting(q, p) && !(q[0].pid == p && IsExit(q[0].st))
  {
    if Waiting(q, p) && !(q[0].pid == p && IsExit(q[0].st)) {
      var k :| 0 <= k < |q| && q[k].pid == p && IsExit(q[k].st);
      assert q[1..][k - 1] == q[k];
    }
  }

  lemma RecordNextKeeps(s: State, s': State)
    requires RunInv(s) && Next(s, RecordNext, s')
    ensures RunInv(s')
  {
    var q, q', e := s.batch + s.queue, s'.batch + s'.queue, s.batch[0];
    assert q' == q[1..] && q[0] == e;
    assert s.recorded + q == (s.recorded + [e]) + q';
    RecordKeeps(s.t, e.pid, e.st);
    RecordHistory(s.t, e.pid, e.st);
    if IsExit(e.st) {
      assert Waiting(q, e.pid);
      BornNotGone(s.t.h, e.pid);
    }
    hide Good, Record;
    forall p ensures Waiting(q', p) <==> Waiting(q, p) && !(q[0].pid == p && IsExit(q[0].st)) { WaitingRest(q, p); }
    WaitingRest(q, 0);
    assert forall p :: Born(s'.t.h, p) <==> Born(s.t.h, p);
  }

  lemma BornNotGone(h: Hist, p: int)
    requires Born(h, p) && p !in h.gone
    ensures Tracked(h, p)
  {
  }

  lemma SweepKeeps(s: State, e: Event, s': State)
    requires RunInv(s) && Next(s, Sweep(e), s')
    ensures RunInv(s')
  {
    RecordKeeps(s.t, e.pid, e.st);
    RecordHistory(s.t, e.pid, e.st);
    if Born(s.t.h, e.pid) && e.pid !in s.t.h.gone { BornNotGone(s.t.h, e.pid); }
    hide Good, Record;
    assert forall p :: Born(s'.t.h, p) <==> Born(s.t.h, p);
  }

  lemma StepKeeps(s: State, step: Step, s': State)
    requires RunInv(s) && Next(s, step, s')
    ensures RunInv(s')
  {
    match step
    case Launch(pids, stopped) => LaunchKeeps(s, pids, stopped, s');
    case Collect(e) => CollectKeeps(s, e, s');
    case Take => TakeKeeps(s, s');
    case RecordNext => RecordNextKeeps(s, s');
    case Sweep(e) => SweepKeeps(s, e, s');
  }

  ghost predicate IsRun(ss: seq<State>, steps: seq<Step>) {
    |ss| == |steps| + 1 && Init(ss[0]) && forall k :: 0 <= k < |steps| ==> Next(ss[k], steps[k], ss[k + 1])
  }

  lemma {:induction false} ReachedInv(ss: seq<State>, steps: seq<Step>, k: nat)
    requires IsRun(ss, steps) && k <= |steps|
    ensures RunInv(ss[k])
  {
    if k == 0 {
      InitInv(ss[0]);
    } else {
      ReachedInv(ss, steps, k - 1);
      StepKeeps(ss[k - 1], steps[k - 1], ss[k]);
    }
  }

  /** In every state of every run, a completion line is printed for a job exactly when the ends of
      all its processes are recorded, only once, and with the verdict of its lead. */
  lemma AnnouncedOnce(ss: seq<State>, steps: seq<Step>, k: nat, n: int)
    requires IsRun(ss, steps) && k <= |steps| && n in ss[k].t.h.born
    ensures var h := ss[k].t.h;
      && (Told(h.out, n) <==> AllGone(h, n)) && (Listed(ss[k].t.jobs, n) <==> !AllGone(h, n))
      && (forall a, b :: 0 <= a < b < |h.out| ==> h.out[a].number != h.out[b].number)
      && (forall m :: 0 <= m < |h.out| && h.out[m].number == n ==>
        h.born[n] != [] && h.born[n][0] in h.gone && h.out[m] == Note(n, h.born[n][0], h.gone[h.born[n][0]].Exited?))
  {
    ReachedInv(ss, steps, k);
    var h := ss[k].t.h;
    forall m | 0 <= m < |h.out| && h.out[m].number == n
      ensures h.born[n] != [] && h.born[n][0] in h.gone && h.out[m] == Note(n, h.born[n][0], h.gone[h.born[n][0]].Exited?)
    {
      assert NoteOk(h, h.out[m]);
    }
  }

  /** With nothing waiting, a job is announced exactly when waitpid has reported the end of every
      one of its processes: no end is lost on the way. */
  lemma QuiescentIsComplete(ss: seq<State>, steps: seq<Step>, k: nat, n: int)
    requires IsRun(ss, steps) && k <= |steps| && ss[k].queue == [] && ss[k].batch == [] && n in ss[k].t.h.born
    ensures Told(ss[k].t.h.out, n) <==> forall p :: p in ss[k].t.h.born[n] ==> p in ss[k].ended
  {
    ReachedInv(ss, steps, k);
    AnnouncedOnce(ss, steps, k, n);
    var s := ss[k];
    assert forall p :: !Waiting(s.batch + s.queue, p);
    if forall p :: p in s.t.h.born[n] ==> p in s.ended {
      forall p | p in s.t.h.born[n] ensures p in s.t.h.gone { assert Born(s.t.h, p); }
    }
  }

  /** The handler's events are recorded in the order collected; the rest waits. */
  lemma NoEventDropped(ss: seq<State>, steps: seq<Step>, k: nat)
    requires IsRun(ss, steps) && k <= |steps|
    ensures ss[k].collected == ss[k].recorded + ss[k].batch + ss[k].queue
  {
    ReachedInv(ss, steps, k);
    assert ss[k].recorded + (ss[k].batch + ss[k].queue) == ss[k].recorded + ss[k].batch + ss[k].queue;
  }

  /** Job numbers rise with the table, are never reused, and each entry says whether any of its
      live processes is stopped. */
  lemma TableInOrder(ss: seq<State>, steps: seq<Step>, k: nat, i: int)
    requires IsRun(ss, steps) && k <= |steps| && 0 <= i < |ss[k].t.jobs|
    ensures var j := ss[k].t.jobs[i];
      && (i + 1 < |ss[k].t.jobs| ==> j.number < ss[k].t.jobs[i + 1].number)
      && 1 <= j.number <= ss[k].t.next && |ss[k].t.jobs| <= MAX_BG_JOBS
      && j.stopped == AnyStopped(j.procs) && 1 <= |j.procs| <= MAX_JOB_PROCS
  {
    ReachedInv(ss, steps, k);
    assert JobOk(ss[k].t.h, ss[k].t.jobs[i]);
  }
}
