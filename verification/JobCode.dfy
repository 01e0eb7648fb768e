/** The job table's code (c-shell/src/bg.c): registering jobs, watching processes, collecting and
    recording statuses. */
module JobCode {
  import opened Basics
  import opened JobTable
  import opened JobRuns

  // ----- the watch list --------------------------------------------------------------------------------

  /** 0 marks a free slot; no process is watched twice. */
  predicate Slots(w: seq<int>) {
    |w| <= MAX_WATCH && forall a, b :: 0 <= a < b < |w| && w[a] != 0 ==> w[a] != w[b]
  }

  /** w' watches what w watches, and pid. */
  ghost predicate Added(w: seq<int>, w': seq<int>, pid: int) {
    Slots(w') && forall p :: p != 0 ==> (p in w' <==> p in w || p == pid)
  }

  ghost predicate Removed(w: seq<int>, w': seq<int>, pid: int) {
    Slots(w') && forall p :: p != 0 ==> (p in w' <==> p in w && p != pid)
  }

  predicate NoRoom(w: seq<int>, w': seq<int>, pid: int) { w' == w && pid !in w && 0 !in w && |w| == MAX_WATCH }

  lemma FillSlot(w: seq<int>, k: int, pid: int)
    requires Slots(w) && 0 <= k < |w| && w[k] == 0 && pid !in w && pid != 0
    ensures Added(w, w[k := pid], pid)
  {
    var w' := w[k := pid];
    forall p | p != 0 && p in w ensures p in w' {
      var a :| 0 <= a < |w| && w[a] == p;
      assert w'[a] == p;
    }
    assert w'[k] == pid;
  }

  lemma AppendSlot(w: seq<int>, pid: int)
    requires Slots(w) && |w| < MAX_WATCH && pid !in w && pid != 0
    ensures Added(w, w + [pid], pid)
  {
  }

  lemma ClearSlot(w: seq<int>, k: int, pid: int)
    requires Slots(w) && 0 <= k < |w| && w[k] == pid && pid != 0
    ensures Removed(w, w[k := 0], pid)
  {
    var w' := w[k := 0];
    forall p | p != 0 && p in w && p != pid ensures p in w' {
      var a :| 0 <= a < |w| && w[a] == p;
      assert w'[a] == p;
    }
  }

  lemma TrimSlot(w: seq<int>)
    requires Slots(w) && w != [] && w[|w| - 1] == 0
    ensures Slots(w[..|w| - 1]) && forall p :: p != 0 ==> (p in w[..|w| - 1] <==> p in w)
  {
    var w' := w[..|w| - 1];
    assert w == w' + [0];
  }

  // ----- how many processes there can be -------------------------------------------------------------------

  ghost function PidsOf(procs: seq<Proc>): (s: set<int>)
    ensures |s| <= |procs| && forall p :: p in s <==> HasProc(procs, p)
  {
    if procs == [] then {} else
      var rest := procs[..|procs| - 1];
      assert forall p :: HasProc(procs, p) ==> HasProc(rest, p) || p == procs[|procs| - 1].pid;
      assert forall p :: HasProc(rest, p) ==> HasProc(procs, p) by {
        forall p | HasProc(rest, p) ensures HasProc(procs, p) {
          var k :| 0 <= k < |rest| && rest[k].pid == p;
          assert procs[k].pid == p;
        }
      }
      PidsOf(rest) + {procs[|procs| - 1].pid}
  }

  ghost function AllPids(jobs: seq<Job>): set<int> {
    if jobs == [] then {} else AllPids(jobs[..|jobs| - 1]) + PidsOf(jobs[|jobs| - 1].procs)
  }

  lemma {:induction false} AllPidsHas(jobs: seq<Job>, i: int, p: int)
    requires 0 <= i < |jobs| && HasProc(jobs[i].procs, p)
    ensures p in AllPids(jobs)
  {
    hide HasProc;
    if i < |jobs| - 1 { AllPidsHas(jobs[..|jobs| - 1], i, p); }
  }

  lemma {:induction false} AllPidsCount(jobs: seq<Job>)
    requires forall i :: 0 <= i < |jobs| ==> |jobs[i].procs| <= MAX_JOB_PROCS
    ensures |AllPids(jobs)| <= MAX_JOB_PROCS * |jobs|
  {
    if jobs != [] {
      var front, last := AllPids(jobs[..|jobs| - 1]), PidsOf(jobs[|jobs| - 1].procs);
      AllPidsCount(jobs[..|jobs| - 1]);
      assert |front + last| == |front| + |last| - |front * last|;
    }
  }

  /** The watch list holds only processes of the table, whose ids are positive. */
  ghost predicate WatchesTracked(w: seq<int>, h: Hist) {
    && Slots(w) && (forall p :: p in w && p != 0 ==> Tracked(h, p))
    && (forall p :: Tracked(h, p) ==> p > 0)
  }

  lemma TrackedInAll(t: Table, p: int)
    requires Good(t) && Tracked(t.h, p)
    ensures p in AllPids(t.jobs)
  {
    hide Good, Tracked;
    TrackedIsFound(t, p);
    AllPidsHas(t.jobs, FindJob(t.jobs, p, 0), p);
  }

  /** There is always room to watch one more process of the table. */
  lemma RoomToWatch(t: Table, w: seq<int>, pid: int)
    requires Good(t) && WatchesTracked(w, t.h) && Tracked(t.h, pid) && pid !in w && 0 !in w
    ensures |w| < MAX_WATCH
  {
    hide Good, AllPids, Tracked, Elements;
    var all := AllPids(t.jobs);
    forall p | Tracked(t.h, p) ensures p in all { TrackedInAll(t, p); }
    FewProcs(t);
    AllPidsCount(t.jobs);
    DistinctSize(w);
    SubsetSize(Elements(w) + {pid}, all);
  }

  lemma FewProcs(t: Table)
    requires Good(t)
    ensures |t.jobs| <= MAX_BG_JOBS && forall i :: 0 <= i < |t.jobs| ==> |t.jobs[i].procs| <= MAX_JOB_PROCS
  {
    forall i | 0 <= i < |t.jobs| ensures |t.jobs[i].procs| <= MAX_JOB_PROCS { assert JobOk(t.h, t.jobs[i]); }
  }

  // ----- watched or waiting ---------------------------------------------------------------------------------

  /** Exits wait once each, for processes that are no longer watched. */
  ghost predicate QueueOk(w: seq<int>, q: seq<Event>, h: Hist) {
    OneExitEach(q) && forall p :: Waiting(q, p) ==> Tracked(h, p) && p !in w
  }

  /** Every process of the table is watched, or its end waits in the queue, or is `late`. */
  ghost predicate Covered(w: seq<int>, q: seq<Event>, h: Hist, late: set<int>) {
    forall p :: Tracked(h, p) ==> p in w || Waiting(q, p) || p in late
  }

  ghost function RecordAll(t: Table, es: seq<Event>): Table {
    if es == [] then t else
      var t' := RecordAll(t, es[..|es| - 1]);
      Record(t', es[|es| - 1].pid, es[|es| - 1].st)
  }

  lemma RecordAllLast(t: Table, es: seq<Event>, e: Event)
    ensures RecordAll(t, es + [e]) == Record(RecordAll(t, es), e.pid, e.st)
  {
    assert (es + [e])[..|es|] == es;
  }

  lemma TrackedAfter(t: Table, pid: int, st: Status, p: int)
    requires Good(t)
    ensures Tracked(Record(t, pid, st).h, p) <==> Tracked(t.h, p) && !(IsExit(st) && p == pid)
  {
    RecordHistory(t, pid, st);
    hide Good, Record;
    var h, h' := t.h, Record(t, pid, st).h;
    if Tracked(h, p) && !(IsExit(st) && p == pid) {
      var n :| n in h.born && p in h.born[n] && p !in h.gone;
      assert n in h'.born && p in h'.born[n] && p !in h'.gone;
    }
  }

  class JobControl {
    var jobs: seq<Job>
    var next: int
    var watched: seq<int>
    var queue: seq<Event>
    var printed: seq<Note>
    ghost var h: Hist

    ghost function T(): Table
      reads this
    {
      Table(jobs, next, h)
    }

    /** The table is right, and every process in it is watched, or its end waits in q or is late. */
    ghost predicate Ok(q: seq<Event>, late: set<int>)
      reads this
    {
      && Good(T()) && printed == h.out
      && WatchesTracked(watched, h) && QueueOk(watched, q, h) && Covered(watched, q, h, late)
    }

    ghost predicate Valid()
      reads this
    {
      Ok(queue, {}) && |queue| <= MAX_WATCH
    }

    /** init_bg(). */
    constructor ()
      ensures Valid() && jobs == [] && next == 0 && queue == [] && h == Hist(map[], map[], [])
    {
      jobs, next, watched, queue, printed := [], 0, [], [], [];
      h := Hist(map[], map[], []);
    }

    /** bg_watch_pid(). */
    method WatchPid(pid: int)
      requires Slots(watched)
      modifies `watched
      ensures pid <= 0 ==> watched == old(watched)
      ensures pid > 0 ==> Added(old(watched), watched, pid) || NoRoom(old(watched), watched, pid)
    {
      if pid <= 0 { return; }
      var slot, i := -1, 0;
      while i < |watched|
        invariant 0 <= i <= |watched| && watched == old(watched) && -1 <= slot < i
        invariant forall k :: 0 <= k < i ==> watched[k] != pid
        invariant slot >= 0 ==> watched[slot] == 0
        invariant slot < 0 ==> forall k :: 0 <= k < i ==> watched[k] != 0
      {
        if watched[i] == pid { return; }
        if watched[i] == 0 && slot < 0 { slot := i; }
        i := i + 1;
      }
      if slot < 0 && |watched| < MAX_WATCH {
        AppendSlot(watched, pid);
        watched := watched + [pid];
      } else if slot >= 0 {
        FillSlot(watched, slot, pid);
        watched := watched[slot := pid];
      }
    }

    /** bg_unwatch_pid(). */
    method UnwatchPid(pid: int) returns (was: bool)
      requires Slots(watched) && pid != 0
      modifies `watched
      ensures Removed(old(watched), watched, pid) && was == (pid in old(watched))
    {
      was := false;
      ghost var w := watched;
      var i := 0;
      while i < |watched|
        invariant 0 <= i <= |watched| && |watched| == |w|
        invariant if was then Removed(w, watched, pid) && pid in w else watched == w && pid !in w[..i]
      {
        if watched[i] == pid {
          if !was { ClearSlot(watched, i, pid); }
          watched := watched[i := 0];
          was := true;
        }
        i := i + 1;
      }
      ghost var w1 := watched;
      while |watched| > 0 && watched[|watched| - 1] == 0
        invariant Slots(watched) && forall p :: p != 0 ==> (p in watched <==> p in w1)
        decreases |watched|
      {
        TrimSlot(watched);
        watched := watched[..|watched| - 1];
      }
    }

    /** sync_job_stopped(). */
    method SyncStopped(procs: seq<Proc>) returns (stopped: bool)
      ensures stopped == AnyStopped(procs)
    {
      stopped := false;
      var k := 0;
      while k < |procs|
        invariant 0 <= k <= |procs| && stopped == AnyStopped(procs[..k])
      {
        assert procs[..k + 1] == procs[..k] + [procs[k]];
        AnyStoppedLast(procs[..k], procs[k]);
        if procs[k].stopped { stopped := true; }
        k := k + 1;
      }
      assert procs[..k] == procs;
    }

    /** The search loops: the job that has the process, and where. */
    method FindPid(pid: int) returns (i: int, k: int)
      ensures i == FindJob(jobs, pid, 0) && 0 <= k && (i < |jobs| ==> k == FindProc(jobs[i].procs, pid, 0) < |jobs[i].procs|)
    {
      i := 0;
      while i < |jobs|
        invariant 0 <= i <= |jobs| && FindJob(jobs, pid, i) == FindJob(jobs, pid, 0)
      {
        k := 0;
        while k < |jobs[i].procs|
          invariant 0 <= k <= |jobs[i].procs| && FindProc(jobs[i].procs, pid, k) == FindProc(jobs[i].procs, pid, 0)
        {
          if jobs[i].procs[k].pid == pid {
            FindsProc(jobs[i].procs, pid);
            return i, k;
          }
          k := k + 1;
        }
        FindsProc(jobs[i].procs, pid);
        i := i + 1;
      }
      return i, 0;
    }

    /** bg_child_exited(). */
    method ChildExited(pid: int, st: Status, ghost q: seq<Event>, ghost late: set<int>) returns (told: bool)
      requires Ok(q, late + {pid}) && IsExit(st) && pid != 0 && !Waiting(q, pid)
      modifies `jobs, `watched, `printed, `h
      ensures Ok(q, late) && T() == Record(old(T()), pid, st)
      ensures told <==> |printed| == |old(printed)| + 1
      ensures !told <==> printed == old(printed)
    {
      ghost var t := T();
      hide Good, QueueOk, Covered, WatchesTracked, Record;
      WatchedSlots(watched, h);
      var w := UnwatchPid(pid);
      var i, k := FindPid(pid);
      ExitedOk(t, pid, st, old(watched), watched, q, late);
      RecordIs(t, pid, st);
      if i == |jobs| { return false; }
      var j := jobs[i];
      if pid == j.lead { j := j.(leadStatus := st, leadReaped := true); }
      j := j.(lastStatus := st);
      j := j.(procs := j.procs[..k] + j.procs[k + 1..]);
      h := Ended(h, pid, st);
      if |j.procs| == 0 {
        var final := if j.leadReaped then j.leadStatus else j.lastStatus;
        printed := printed + [Note(j.number, j.lead, final.Exited?)];
        h := h.(out := h.out + [Note(j.number, j.lead, final.Exited?)]);
        jobs := jobs[..i] + jobs[i + 1..];
        return true;
      }
      var stopped := SyncStopped(j.procs);
      jobs := jobs[i := j.(stopped := stopped)];
      return false;
    }

    /** record_status(). */
    method RecordStatus(pid: int, st: Status, ghost q: seq<Event>) returns (told: bool)
      requires Ok(q, Late(pid, st)) && (IsExit(st) ==> pid > 0 && !Waiting(q, pid))
      modifies `jobs, `watched, `printed, `h
      ensures Ok(q, {}) && T() == Record(old(T()), pid, st)
      ensures told <==> |printed| == |old(printed)| + 1
      ensures !told <==> printed == old(printed)
    {
      ghost var t := T();
      hide Good, QueueOk, Covered, WatchesTracked, Record;
      if IsExit(st) {
        assert {} + {pid} == Late(pid, st);
        told := ChildExited(pid, st, q, {});
        return;
      }
      FlaggedOk(t, pid, st, watched, q);
      RecordIs(t, pid, st);
      var i, k := FindPid(pid);
      if i < |jobs| {
        var procs := jobs[i].procs[k := jobs[i].procs[k].(stopped := st.Stopped?)];
        var stopped := SyncStopped(procs);
        jobs := jobs[i := jobs[i].(procs := procs, stopped := stopped)];
      }
      return false;
    }

    /** check_bg_jobs(): the queue, then what the second sweep finds.  SIGCHLD is blocked only while the
        queue is copied: before each status is recorded the handler may run, on the next element of
        `ready`.  waitpid() reports an end once, to the handler or to the sweep. */
    method CheckBgJobs(swept: seq<Event>, ready: seq<map<int, Status>>) returns (reported: int)
      requires Valid() && forall k :: 0 <= k < |swept| ==> swept[k].pid > 0
      requires forall k, j :: 0 <= k < |swept| && 0 <= j < |ready| && IsExit(swept[k].st) ==> !EndsIn(ready[j], swept[k].pid)
      modifies `jobs, `watched, `queue, `printed, `h
      ensures Valid() && T() == RecordAll(old(T()), old(queue) + swept)
      ensures FromReady(queue, ready) && reported == |printed| - |old(printed)|
    {
      ghost var t := T();
      hide Good, QueueOk, Covered, WatchesTracked, Record, RecordAll, Waiting, FromReady;
      var batch := queue;
      queue := [];
      reported := 0;
      RecordNone(t);
      FromNone(ready);
      assert batch[0..] + [] == batch && batch[..0] == [];
      var i, turn := 0, 0;
      while i < |batch|
        invariant 0 <= i <= |batch| && 0 <= turn && Ok(batch[i..] + queue, {}) && |queue| <= MAX_WATCH && FromReady(queue, ready)
        invariant T() == RecordAll(t, batch[..i]) && reported == |printed| - |old(printed)|
      {
        Interrupt(ready, turn, batch[i..]);
        ghost var r := batch[i..] + queue;
        assert r[0..] == r && r[0] == batch[i] && r[1..] == batch[i + 1..] + queue;
        NextEvent(watched, r, 0, h);
        RecordUpTo(t, batch, i);
        var told := RecordStatus(batch[i].pid, batch[i].st, batch[i + 1..] + queue);
        if told { reported := reported + 1; }
        i, turn := i + 1, turn + 1;
      }
      assert batch[i..] + queue == queue && batch[..i] == batch;
      i := 0;
      assert batch + swept[..0] == batch;
      while i < |swept|
        invariant 0 <= i <= |swept| && 0 <= turn && Valid() && FromReady(queue, ready)
        invariant T() == RecordAll(t, batch + swept[..i]) && reported == |printed| - |old(printed)|
      {
        assert [] + queue == queue;
        Interrupt(ready, turn, []);
        assert [] + queue == queue;
        if IsExit(swept[i].st) { NotAmong(queue, ready, swept[i].pid); }
        AnyoneLate(watched, queue, h, swept[i]);
        RecordUpTo(t, batch + swept, |batch| + i);
        assert (batch + swept)[..|batch| + i] == batch + swept[..i];
        assert (batch + swept)[..|batch| + i + 1] == batch + swept[..i + 1];
        var told := RecordStatus(swept[i].pid, swept[i].st, queue);
        if told { reported := reported + 1; }
        i, turn := i + 1, turn + 1;
      }
      assert batch + swept[..i] == batch + swept;
    }

    /** SIGCHLD arrives, or not. */
    method Interrupt(ready: seq<map<int, Status>>, turn: int, ghost before: seq<Event>)
      requires Ok(before + queue, {}) && |queue| <= MAX_WATCH && FromReady(queue, ready) && 0 <= turn
      modifies `watched, `queue
      ensures Ok(before + queue, {}) && |queue| <= MAX_WATCH && FromReady(queue, ready)
    {
      hide Good, QueueOk, Covered, WatchesTracked;
      if turn < |ready| {
        ghost var q := queue;
        Handler(ready[turn], before);
        FromMore(q, queue, ready, turn);
      }
    }

    /** sigchld_handler(): waitpid() has a status for the processes in `ready`; `before` are statuses
        copied from the queue and not yet recorded. */
    method Handler(ready: map<int, Status>, ghost before: seq<Event>)
      requires Ok(before + queue, {}) && |queue| <= MAX_WATCH
      modifies `watched, `queue
      ensures Ok(before + queue, {}) && |old(queue)| <= |queue| <= MAX_WATCH && queue[..|old(queue)|] == old(queue)
      ensures forall k :: |old(queue)| <= k < |queue| ==>
        queue[k].pid in old(watched) && queue[k].pid in ready && queue[k].st == ready[queue[k].pid]
      ensures |queue| < MAX_WATCH ==> forall p :: p in old(watched) && p > 0 && p in ready ==> Event(p, ready[p]) in queue
    {
      hide Good, QueueOk, Covered, WatchesTracked, Waiting;
      ghost var w, q := watched, queue;
      var i := 0;
      while i < |watched| && |queue| < MAX_WATCH
        invariant 0 <= i <= |watched| == |w| && Ok(before + queue, {}) && |q| <= |queue| <= MAX_WATCH && queue[..|q|] == q
        invariant watched[i..] == w[i..]
        invariant forall k :: |q| <= k < |queue| ==> queue[k].pid in w && queue[k].pid in ready && queue[k].st == ready[queue[k].pid]
        invariant forall k :: 0 <= k < i && w[k] > 0 && w[k] in ready ==> Event(w[k], ready[w[k]]) in queue
      {
        var pid := watched[i];
        assert watched[i..][0] == w[i..][0];
        if pid > 0 && pid in ready {
          var e := Event(pid, ready[pid]);
          CollectOk(watched, before + queue, h, i, e);
          assert before + queue + [e] == before + (queue + [e]);
          if IsExit(e.st) { watched := watched[i := 0]; }
          queue := queue + [e];
        }
        assert watched[i + 1..] == w[i + 1..] by { SameTail(watched, w, i); }
        i := i + 1;
      }
    }

    /** add_job(): 0 if there is no process or no room, else the new job's number. */
    method AddJob(pids: seq<int>) returns (number: int)
      requires Valid() && Distinct(pids) && Fresh(h, pids) && forall p :: p in pids ==> p > 0
      modifies `jobs, `next, `watched, `h
      ensures Valid() && (number == 0 <==> pids == [] || |old(jobs)| >= MAX_BG_JOBS)
      ensures number == 0 ==> T() == old(T()) && watched == old(watched)
      ensures number != 0 ==> number == old(next) + 1 && T() == Table(old(jobs) + [NewJob(number, Tracked16(pids), false)],
                                                   number, Started(old(h), number, Tracked16(pids)))
      ensures number != 0 ==> forall p :: p in Tracked16(pids) ==> p in watched
    {
      hide Good, QueueOk, Covered, WatchesTracked, Waiting, NewJob, Tracked16, Distinct, Fresh;
      if |pids| == 0 { return 0; }
      if |jobs| >= MAX_BG_JOBS { return 0; }
      var ps := Truncate(pids);
      LaunchOk(T(), watched, queue, pids);
      number := next + 1;
      next := number;
      jobs := jobs + [NewJob(number, ps, false)];
      h := Started(h, number, ps);
      ghost var t := T();
      var i := 0;
      assert ps[0..] == ps;
      while i < |ps|
        invariant 0 <= i <= |ps| && T() == t && Ok(queue, Elements(ps[i..]))
        invariant forall p :: p in ps ==> p > 0 && p !in h.gone && !Waiting(queue, p)
        invariant forall k :: 0 <= k < i ==> ps[k] in watched
      {
        WatchedSlots(watched, h);
        ghost var w := watched;
        assert ps[i] in ps;
        NewPid(t, ps, number, i);
        WatchPid(ps[i]);
        if NoRoom(w, watched, ps[i]) { RoomToWatch(T(), watched, ps[i]); }
        assert Added(w, watched, ps[i]);
        WatchedOk(w, watched, queue, h, ps, i);
        forall k | 0 <= k <= i ensures ps[k] in watched {
          assert ps[k] in ps;
          StillWatched(w, watched, ps[i], ps[k]);
        }
        i := i + 1;
      }
      assert Elements(ps[i..]) == {};
    }

    /** register_stopped_job(): a new job with every process marked as stopped. */
    method RegisterStopped(pids: seq<int>) returns (number: int)
      requires Valid() && Distinct(pids) && Fresh(h, pids) && forall p :: p in pids ==> p > 0
      modifies `jobs, `next, `watched, `h
      ensures Valid() && (number == 0 <==> pids == [] || |old(jobs)| >= MAX_BG_JOBS)
      ensures number == 0 ==> T() == old(T())
      ensures number != 0 ==> number == old(next) + 1 && T() == Table(old(jobs) + [NewJob(number, Tracked16(pids), true)],
                                                   number, Started(old(h), number, Tracked16(pids)))
    {
      ghost var t := T();
      hide Inv, QueueOk, Covered, WatchesTracked, Waiting, Distinct, Fresh, Tracked16;
      number := AddJob(pids);
      if number == 0 { return; }
      PrefixFresh(t.h, pids);
      StartKeeps(t.jobs, t.next, t.h, Tracked16(pids), true);
      var last := |jobs| - 1;
      var procs := jobs[last].procs;
      var k := 0;
      while k < |procs|
        invariant 0 <= k <= |procs| == |Tracked16(pids)|
        invariant forall a :: 0 <= a < |procs| ==> procs[a] == Proc(Tracked16(pids)[a], a < k)
      {
        procs := procs[k := procs[k].(stopped := true)];
        k := k + 1;
      }
      assert procs == NewProcs(Tracked16(pids), true);
      var stopped := SyncStopped(procs);
      assert procs[0].stopped;
      jobs := jobs[last := jobs[last].(procs := procs, stopped := stopped)];
      assert jobs == t.jobs + [NewJob(number, Tracked16(pids), true)];
    }

    /** The first MAX_JOB_PROCS processes are the ones tracked. */
    method Truncate(pids: seq<int>) returns (ps: seq<int>)
      ensures ps == Tracked16(pids)
    {
      ps := if |pids| > MAX_JOB_PROCS then pids[..MAX_JOB_PROCS] else pids;
    }
  }

  /** A new job: its processes are all still to be watched. */
  lemma LaunchOk(t: Table, w: seq<int>, q: seq<Event>, pids: seq<int>)
    requires Good(t) && WatchesTracked(w, t.h) && QueueOk(w, q, t.h) && Covered(w, q, t.h, {})
    requires pids != [] && |t.jobs| < MAX_BG_JOBS && Distinct(pids) && Fresh(t.h, pids) && forall p :: p in pids ==> p > 0
    ensures var ps, n := Tracked16(pids), t.next + 1;
      var h' := Started(t.h, n, ps);
      && ps != [] && Good(Table(t.jobs + [NewJob(n, ps, false)], n, h')) && h'.out == t.h.out && n != 0
      && WatchesTracked(w, h') && QueueOk(w, q, h') && Covered(w, q, h', Elements(ps))
      && (forall p :: p in ps ==> p > 0 && p !in t.h.gone && !Waiting(q, p))
  {
    hide Inv, Tracked, Waiting, OneExitEach, Slots, NewJob, Fresh, Distinct, Tracked16;
    var ps, n := Tracked16(pids), t.next + 1;
    PrefixFresh(t.h, pids);
    FreshGone(t.h, ps);
    StartKeeps(t.jobs, t.next, t.h, ps, false);
    NumbersUsed(t);
    forall p ensures Tracked(Started(t.h, n, ps), p) <==> Tracked(t.h, p) || p in ps { TrackedStarted(t.h, n, ps, p); }
  }

  lemma FreshGone(h: Hist, ps: seq<int>)
    requires Fresh(h, ps)
    ensures forall p :: p in ps ==> p !in h.gone && !Tracked(h, p)
  {
  }

  lemma TrackedStarted(h: Hist, n: int, ps: seq<int>, p: int)
    requires n !in h.born && forall x :: x in ps ==> x !in h.gone
    ensures Tracked(Started(h, n, ps), p) <==> Tracked(h, p) || p in ps
  {
    var h' := Started(h, n, ps);
    if Tracked(h, p) {
      var m :| m in h.born && p in h.born[m] && p !in h.gone;
      assert m in h'.born && p in h'.born[m];
    }
    if p in ps { assert n in h'.born && p in h'.born[n]; }
  }

  /** The new processes are tracked, as numbers above 0. */
  lemma NewPid(t: Table, ps: seq<int>, n: int, i: int)
    requires 0 <= i < |ps| && n in t.h.born && t.h.born[n] == ps && forall p :: p in ps ==> p !in t.h.gone
    ensures Tracked(t.h, ps[i])
  {
  }

  lemma WatchedOk(w: seq<int>, w': seq<int>, q: seq<Event>, h: Hist, ps: seq<int>, i: int)
    requires 0 <= i < |ps| && WatchesTracked(w, h) && QueueOk(w, q, h) && Covered(w, q, h, Elements(ps[i..]))
    requires Added(w, w', ps[i]) && Tracked(h, ps[i]) && !Waiting(q, ps[i])
    ensures WatchesTracked(w', h) && QueueOk(w', q, h) && Covered(w', q, h, Elements(ps[i + 1..]))
  {
    forall p | p in Elements(ps[i..]) ensures p == ps[i] || p in Elements(ps[i + 1..]) {
      assert ps[i..] == [ps[i]] + ps[i + 1..];
    }
    hide Waiting, Tracked, OneExitEach, Slots;
  }

  lemma StillWatched(w: seq<int>, w': seq<int>, pid: int, p: int)
    requires Added(w, w', pid) && p != 0 && (p in w || p == pid)
    ensures p in w'
  {
  }

  lemma SameTail(a: seq<int>, b: seq<int>, i: int)
    requires 0 <= i < |a| == |b| && forall k :: i < k < |a| ==> a[k] == b[k]
    ensures a[i + 1..] == b[i + 1..]
  {
  }

  /** One status collected for the process in slot i; its end also ends the watch. */
  lemma CollectOk(w: seq<int>, q: seq<Event>, h: Hist, i: int, e: Event)
    requires WatchesTracked(w, h) && QueueOk(w, q, h) && Covered(w, q, h, {}) && 0 <= i < |w| && w[i] == e.pid > 0
    ensures var w' := if IsExit(e.st) then w[i := 0] else w;
      WatchesTracked(w', h) && QueueOk(w', q + [e], h) && Covered(w', q + [e], h, {})
  {
    var w', q' := if IsExit(e.st) then w[i := 0] else w, q + [e];
    ClearSlot(w, i, e.pid);
    forall p ensures Waiting(q', p) <==> Waiting(q, p) || (p == e.pid && IsExit(e.st)) { WaitingOneMore(q, e, p); }
    assert OneExitEach(q') by {
      forall a | 0 <= a < |q| && IsExit(q[a].st) && IsExit(e.st) ensures q[a].pid != e.pid { assert Waiting(q, q[a].pid); }
    }
    hide Waiting, Tracked, OneExitEach, Slots;
  }

  function Late(pid: int, st: Status): set<int> { if IsExit(st) then {pid} else {} }

  lemma RecordNone(t: Table)
    ensures RecordAll(t, []) == t
  {
  }

  lemma RecordUpTo(t: Table, es: seq<Event>, i: int)
    requires 0 <= i < |es|
    ensures RecordAll(t, es[..i + 1]) == Record(RecordAll(t, es[..i]), es[i].pid, es[i].st)
  {
    assert es[..i + 1] == es[..i] + [es[i]];
    RecordAllLast(t, es[..i], es[i]);
  }

  lemma FlaggedOk(t: Table, pid: int, st: Status, w: seq<int>, q: seq<Event>)
    requires Good(t) && WatchesTracked(w, t.h) && QueueOk(w, q, t.h) && Covered(w, q, t.h, {}) && !IsExit(st)
    ensures var t' := Record(t, pid, st);
      && Good(t') && WatchesTracked(w, t'.h) && QueueOk(w, q, t'.h) && Covered(w, q, t'.h, {}) && t'.h == t.h
  {
    RecordKeeps(t, pid, st);
    RecordIs(t, pid, st);
  }

  /** The first waiting event taken out of the queue. */
  lemma NextEvent(w: seq<int>, q: seq<Event>, i: int, h: Hist)
    requires 0 <= i < |q| && WatchesTracked(w, h) && QueueOk(w, q[i..], h) && Covered(w, q[i..], h, {})
    ensures q[i..][1..] == q[i + 1..]
    ensures QueueOk(w, q[i + 1..], h) && Covered(w, q[i + 1..], h, Late(q[i].pid, q[i].st))
    ensures IsExit(q[i].st) ==> !Waiting(q[i + 1..], q[i].pid) && q[i].pid > 0
  {
    var r := q[i..];
    assert r[0] == q[i] && r[1..] == q[i + 1..];
    forall p ensures Waiting(r[1..], p) <==> Waiting(r, p) && !(r[0].pid == p && IsExit(r[0].st)) { WaitingRest(r, p); }
    WaitingRest(r, 0);
    if IsExit(r[0].st) { assert Waiting(r, r[0].pid); }
    hide Waiting, Tracked, OneExitEach, Slots;
  }

  lemma AnyoneLate(w: seq<int>, q: seq<Event>, h: Hist, e: Event)
    requires Covered(w, q, h, {})
    ensures Covered(w, q, h, Late(e.pid, e.st))
  {
  }

  /** Process p has ended, says waitpid. */
  predicate EndsIn(ready: map<int, Status>, p: int) { p in ready && IsExit(ready[p]) }

  ghost predicate Among(ready: seq<map<int, Status>>, e: Event) {
    exists j :: 0 <= j < |ready| && e.pid in ready[j] && ready[j][e.pid] == e.st
  }

  /** Everything in the queue was ready for the handler at some time. */
  ghost predicate FromReady(q: seq<Event>, ready: seq<map<int, Status>>) { forall k :: 0 <= k < |q| ==> Among(ready, q[k]) }

  lemma FromNone(ready: seq<map<int, Status>>)
    ensures FromReady([], ready)
  {
  }

  lemma FromMore(q: seq<Event>, q': seq<Event>, ready: seq<map<int, Status>>, turn: int)
    requires FromReady(q, ready) && |q| <= |q'| && q'[..|q|] == q && 0 <= turn < |ready|
    requires forall k :: |q| <= k < |q'| ==> q'[k].pid in ready[turn] && q'[k].st == ready[turn][q'[k].pid]
    ensures FromReady(q', ready)
  {
    forall k | 0 <= k < |q'| ensures Among(ready, q'[k]) {
      if k < |q| {
        assert q'[k] == q'[..|q|][k] == q[k];
      } else {
        assert q'[k].pid in ready[turn] && ready[turn][q'[k].pid] == q'[k].st;
      }
    }
  }

  lemma NotAmong(q: seq<Event>, ready: seq<map<int, Status>>, p: int)
    requires FromReady(q, ready) && forall j :: 0 <= j < |ready| ==> !EndsIn(ready[j], p)
    ensures !Waiting(q, p)
  {
    forall k | 0 <= k < |q| && q[k].pid == p ensures !IsExit(q[k].st) {
      assert Among(ready, q[k]);
      var j :| 0 <= j < |ready| && q[k].pid in ready[j] && ready[j][q[k].pid] == q[k].st;
      assert !EndsIn(ready[j], p);
    }
  }

  lemma WatchedSlots(w: seq<int>, h: Hist)
    requires WatchesTracked(w, h)
    ensures Slots(w)
  {
  }

  lemma RecordIs(t: Table, pid: int, st: Status)
    ensures var i := FindJob(t.jobs, pid, 0);
      if i == |t.jobs| then Record(t, pid, st) == t
      else var k := FindProc(t.jobs[i].procs, pid, 0);
        k < |t.jobs[i].procs| && t.jobs[i].procs[k].pid == pid && Record(t, pid, st) == RecordAt(t, i, k, st)
  {
    var i := FindJob(t.jobs, pid, 0);
    if i < |t.jobs| { FindsProc(t.jobs[i].procs, pid); }
  }

  /** Recording the end of a process that is no longer watched and does not wait. */
  lemma ExitedOk(t: Table, pid: int, st: Status, w: seq<int>, w': seq<int>, q: seq<Event>, late: set<int>)
    requires Good(t) && WatchesTracked(w, t.h) && QueueOk(w, q, t.h) && Covered(w, q, t.h, late + {pid})
    requires Removed(w, w', pid) && IsExit(st) && !Waiting(q, pid)
    ensures var t' := Record(t, pid, st);
      Good(t') && WatchesTracked(w', t'.h) && QueueOk(w', q, t'.h) && Covered(w', q, t'.h, late)
  {
    var t' := Record(t, pid, st);
    RecordKeeps(t, pid, st);
    forall p ensures Tracked(t'.h, p) <==> Tracked(t.h, p) && p != pid { TrackedAfter(t, pid, st, p); }
    hide Good, Record, Tracked, Waiting, OneExitEach, Slots;
  }

  lemma AnyStoppedLast(procs: seq<Proc>, p: Proc)
    ensures AnyStopped(procs + [p]) <==> AnyStopped(procs) || p.stopped
  {
    var ps := procs + [p];
    assert ps[|procs|] == p;
    if AnyStopped(procs) {
      var k :| 0 <= k < |procs| && procs[k].stopped;
      assert ps[k].stopped;
    }
  }
}
