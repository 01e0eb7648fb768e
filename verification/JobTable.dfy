/** The background job table (c-shell/src/bg.c): jobs, their processes, and who is told what when. */
module JobTable {
  import opened Basics

  const MAX_BG_JOBS: nat := 256
  const MAX_JOB_PROCS: nat := 16

  /** A wait status. */
  datatype Status = Stopped | Continued | Exited(code: int) | Signaled(sig: int)

  predicate IsExit(st: Status) { st.Exited? || st.Signaled? }

  datatype Proc = Proc(pid: int, stopped: bool)

  datatype Job = Job(number: int, lead: int, procs: seq<Proc>, leadStatus: Status, leadReaped: bool,
                     lastStatus: Status, stopped: bool)

  /** A printed completion line. */
  datatype Note = Note(number: int, lead: int, normal: bool)

  /** What has happened: which processes each job was started with (the first is its lead), how
      each process ended, and what was printed. */
  datatype Hist = Hist(born: map<int, seq<int>>, gone: map<int, Status>, out: seq<Note>)

  predicate HasProc(procs: seq<Proc>, pid: int) { exists k :: 0 <= k < |procs| && procs[k].pid == pid }

  predicate DistinctProcs(procs: seq<Proc>) {
    forall a, b :: 0 <= a < b < |procs| ==> procs[a].pid != procs[b].pid
  }

  predicate AnyStopped(procs: seq<Proc>) { exists k :: 0 <= k < |procs| && procs[k].stopped }

  ghost predicate Known(h: Hist, n: int) { n in h.born && h.born[n] != [] && Distinct(h.born[n]) }

  /** All processes of job n have ended. */
  ghost predicate AllGone(h: Hist, n: int)
    requires n in h.born
  {
    forall p :: p in h.born[n] ==> p in h.gone
  }

  /** A table entry says what history says of its job. */
  ghost predicate JobOk(h: Hist, j: Job) {
    && Known(h, j.number) && j.lead == h.born[j.number][0]
    && 1 <= |j.procs| <= MAX_JOB_PROCS && DistinctProcs(j.procs)
    && (forall p :: HasProc(j.procs, p) <==> p in h.born[j.number] && p !in h.gone)
    && (j.leadReaped <==> j.lead in h.gone) && (j.leadReaped ==> j.leadStatus == h.gone[j.lead])
    && j.stopped == AnyStopped(j.procs)
  }

  predicate Ascending(jobs: seq<Job>) { forall a, b :: 0 <= a < b < |jobs| ==> jobs[a].number < jobs[b].number }

  predicate Listed(jobs: seq<Job>, n: int) { exists i :: 0 <= i < |jobs| && jobs[i].number == n }

  predicate Told(out: seq<Note>, n: int) { exists m :: 0 <= m < |out| && out[m].number == n }

  /** A printed line names a job that is over, once, with the verdict of its lead. */
  ghost predicate NotesOk(h: Hist) {
    && (forall m :: 0 <= m < |h.out| ==> NoteOk(h, h.out[m]))
    && (forall a, b :: 0 <= a < b < |h.out| ==> h.out[a].number != h.out[b].number)
  }

  ghost predicate NoteOk(h: Hist, t: Note) {
    && Known(h, t.number) && t.lead == h.born[t.number][0] && AllGone(h, t.number)
    && t.normal == h.gone[t.lead].Exited?
  }

  /** No process belongs to two jobs. */
  ghost predicate Apart(h: Hist) {
    forall n, m, p :: n in h.born && m in h.born && p in h.born[n] && p in h.born[m] ==> n == m
  }

  ghost predicate Inv(jobs: seq<Job>, next: int, h: Hist) {
    && |jobs| <= MAX_BG_JOBS && Ascending(jobs)
    && (forall i :: 0 <= i < |jobs| ==> JobOk(h, jobs[i]))
    && (forall n :: n in h.born ==> Known(h, n) && 1 <= n <= next)
    && Apart(h) && NotesOk(h)
    && (forall n :: n in h.born ==> (Listed(jobs, n) <==> !AllGone(h, n)))
    && (forall n :: n in h.born ==> (Told(h.out, n) <==> AllGone(h, n)))
  }

  // ----- a process ends ----------------------------------------------------------------------------

  ghost function Ended(h: Hist, pid: int, st: Status): Hist { h.(gone := h.gone[pid := st]) }

  function Without(procs: seq<Proc>, k: int): seq<Proc>
    requires 0 <= k < |procs|
  {
    procs[..k] + procs[k + 1..]
  }

  lemma WithoutHas(procs: seq<Proc>, k: int, p: int)
    requires 0 <= k < |procs| && DistinctProcs(procs)
    ensures DistinctProcs(Without(procs, k))
    ensures HasProc(Without(procs, k), p) <==> HasProc(procs, p) && p != procs[k].pid
  {
    var rest := Without(procs, k);
    assert forall a :: 0 <= a < |rest| ==> rest[a] == if a < k then procs[a] else procs[a + 1];
    if HasProc(procs, p) && p != procs[k].pid {
      var a :| 0 <= a < |procs| && procs[a].pid == p;
      assert rest[if a < k then a else a - 1].pid == p;
    }
  }

  /** The entry after process k ended with st. */
  function Shrunk(j: Job, k: int, st: Status): Job
    requires 0 <= k < |j.procs|
  {
    var rest := Without(j.procs, k);
    var j' := j.(procs := rest, lastStatus := st, stopped := AnyStopped(rest));
    if j.procs[k].pid == j.lead then j'.(leadStatus := st, leadReaped := true) else j'
  }

  lemma ShrunkOk(h: Hist, j: Job, k: int, st: Status)
    requires JobOk(h, j) && 0 <= k < |j.procs| && |j.procs| > 1
    ensures JobOk(Ended(h, j.procs[k].pid, st), Shrunk(j, k, st))
  {
    var pid := j.procs[k].pid;
    var h', j' := Ended(h, pid, st), Shrunk(j, k, st);
    hide AnyStopped;
    forall p ensures HasProc(j'.procs, p) <==> p in h'.born[j'.number] && p !in h'.gone {
      WithoutHas(j.procs, k, p);
    }
    WithoutHas(j.procs, k, pid);
    assert HasProc(j.procs, pid);
  }

  lemma OtherOk(h: Hist, j: Job, pid: int, st: Status)
    requires JobOk(h, j) && pid !in h.born[j.number]
    ensures JobOk(Ended(h, pid, st), j)
  {
    hide AnyStopped, HasProc, DistinctProcs;
  }

  lemma OtherGone(h: Hist, n: int, pid: int, st: Status)
    requires n in h.born && pid !in h.born[n]
    ensures AllGone(Ended(h, pid, st), n) <==> AllGone(h, n)
  {
    if AllGone(Ended(h, pid, st), n) {
      forall p | p in h.born[n] ensures p in h.gone { }
    }
  }

  lemma NotesFrame(h: Hist, pid: int, st: Status)
    requires NotesOk(h) && pid !in h.gone
    ensures NotesOk(Ended(h, pid, st))
  {
    forall m | 0 <= m < |h.out| ensures NoteOk(Ended(h, pid, st), h.out[m]) {
      assert NoteOk(h, h.out[m]);
      assert h.out[m].lead in h.born[h.out[m].number];
    }
  }

  /** Facts about the process that ends. */
  lemma PidFacts(jobs: seq<Job>, next: int, h: Hist, i: int, k: int)
    requires Inv(jobs, next, h) && 0 <= i < |jobs| && 0 <= k < |jobs[i].procs|
    ensures var pid := jobs[i].procs[k].pid;
      && jobs[i].number in h.born && pid in h.born[jobs[i].number] && pid !in h.gone
      && (forall n :: n in h.born && n != jobs[i].number ==> pid !in h.born[n])
  {
    assert JobOk(h, jobs[i]);
    assert HasProc(jobs[i].procs, jobs[i].procs[k].pid);
  }

  lemma ListedUpdate(jobs: seq<Job>, i: int, j: Job, n: int)
    requires 0 <= i < |jobs| && j.number == jobs[i].number
    ensures Listed(jobs[i := j], n) <==> Listed(jobs, n)
  {
    var js := jobs[i := j];
    if Listed(jobs, n) {
      var a :| 0 <= a < |jobs| && jobs[a].number == n;
      assert js[a].number == n;
    }
  }

  /** Not the job's last process: the job stays, one process shorter. */
  lemma ExitKeeps(jobs: seq<Job>, next: int, h: Hist, i: int, k: int, st: Status)
    requires Inv(jobs, next, h) && 0 <= i < |jobs| && 0 <= k < |jobs[i].procs| && |jobs[i].procs| > 1
    ensures Inv(jobs[i := Shrunk(jobs[i], k, st)], next, Ended(h, jobs[i].procs[k].pid, st))
  {
    var pid, j' := jobs[i].procs[k].pid, Shrunk(jobs[i], k, st);
    var h', jobs' := Ended(h, pid, st), jobs[i := j'];
    PidFacts(jobs, next, h, i, k);
    assert JobOk(h, jobs[i]);
    ShrunkOk(h, jobs[i], k, st);
    NotesFrame(h, pid, st);
    hide JobOk, NotesOk, AnyStopped, Shrunk;
    SameNumber(jobs[i], k, st);
    forall a | 0 <= a < |jobs'| ensures JobOk(h', jobs'[a]) {
      if a != i {
        assert JobOk(h, jobs[a]);
        NumberKnown(h, jobs[a]);
        OtherOk(h, jobs[a], pid, st);
      }
    }
    StillSomeone(h', j');
    forall n | n in h.born ensures (Listed(jobs', n) <==> !AllGone(h', n)) && (Told(h'.out, n) <==> AllGone(h', n)) {
      ListedUpdate(jobs, i, j', n);
      if n != jobs[i].number { OtherGone(h, n, pid, st); } else { NotBefore(h, n, pid, st); }
    }
  }

  lemma SameNumber(j: Job, k: int, st: Status)
    requires 0 <= k < |j.procs|
    ensures Shrunk(j, k, st).number == j.number
  {
  }

  lemma NumberKnown(h: Hist, j: Job)
    requires JobOk(h, j)
    ensures j.number in h.born
  {
  }

  lemma StillSomeone(h: Hist, j: Job)
    requires JobOk(h, j)
    ensures j.number in h.born && !AllGone(h, j.number)
  {
    assert HasProc(j.procs, j.procs[0].pid);
  }

  lemma NotBefore(h: Hist, n: int, pid: int, st: Status)
    requires n in h.born && !AllGone(Ended(h, pid, st), n)
    ensures !AllGone(h, n)
  {
  }

  // ----- a job's last process ends --------------------------------------------------------------------

  /** The lead's status if it is there, else the last one: what the completion line goes by. */
  function FinalStatus(j: Job): Status { if j.leadReaped then j.leadStatus else j.lastStatus }

  ghost function Told1(h: Hist, j: Job): Hist {
    h.(out := h.out + [Note(j.number, j.lead, FinalStatus(j).Exited?)])
  }

  function Drop(jobs: seq<Job>, i: int): seq<Job>
    requires 0 <= i < |jobs|
  {
    jobs[..i] + jobs[i + 1..]
  }

  lemma DropListed(jobs: seq<Job>, i: int, n: int)
    requires 0 <= i < |jobs| && Ascending(jobs)
    ensures Ascending(Drop(jobs, i)) && (Listed(Drop(jobs, i), n) <==> Listed(jobs, n) && n != jobs[i].number)
  {
    var js := Drop(jobs, i);
    assert forall a :: 0 <= a < |js| ==> js[a] == if a < i then jobs[a] else jobs[a + 1];
    if Listed(jobs, n) && n != jobs[i].number {
      var a :| 0 <= a < |jobs| && jobs[a].number == n;
      assert js[if a < i then a else a - 1].number == n;
    }
  }

  /** With its one process gone, all of the job is, and the final status is the lead's. */
  lemma OnlyOneLeft(h: Hist, j: Job, st: Status)
    requires JobOk(h, j) && |j.procs| == 1
    ensures var pid := j.procs[0].pid;
      && AllGone(Ended(h, pid, st), j.number)
      && FinalStatus(Shrunk(j, 0, st)) == Ended(h, pid, st).gone[j.lead]
      && NoteOk(Ended(h, pid, st), Note(j.number, j.lead, FinalStatus(Shrunk(j, 0, st)).Exited?))
  {
    var pid := j.procs[0].pid;
    var h' := Ended(h, pid, st);
    forall p | p in h.born[j.number] ensures p in h'.gone {
      if p !in h.gone { assert HasProc(j.procs, p); }
    }
    if j.lead != pid { assert !HasProc(j.procs, j.lead); }
  }

  lemma ToldOneMore(out: seq<Note>, t: Note, n: int)
    ensures Told(out + [t], n) <==> Told(out, n) || n == t.number
  {
    var out' := out + [t];
    assert out'[|out|] == t;
    if Told(out, n) {
      var m :| 0 <= m < |out| && out[m].number == n;
      assert out'[m].number == n;
    }
  }

  lemma NotesOneMore(h: Hist, t: Note)
    requires NotesOk(h) && NoteOk(h, t) && !Told(h.out, t.number)
    ensures NotesOk(h.(out := h.out + [t]))
  {
    var h' := h.(out := h.out + [t]);
    forall m | 0 <= m < |h'.out| ensures NoteOk(h', h'.out[m]) {
      assert NoteOk(h, h'.out[m]);
    }
  }

  lemma JobOkOut(h: Hist, out: seq<Note>, j: Job)
    requires JobOk(h, j)
    ensures JobOk(h.(out := out), j)
  {
    hide AnyStopped, HasProc, DistinctProcs;
  }

  lemma LastExitKeeps(jobs: seq<Job>, next: int, h: Hist, i: int, st: Status)
    requires Inv(jobs, next, h) && 0 <= i < |jobs| && |jobs[i].procs| == 1
    ensures Inv(Drop(jobs, i), next, Told1(Ended(h, jobs[i].procs[0].pid, st), Shrunk(jobs[i], 0, st)))
  {
    var j, pid, j' := jobs[i], jobs[i].procs[0].pid, Shrunk(jobs[i], 0, st);
    var h1 := Ended(h, pid, st);
    var t := Note(j.number, j.lead, FinalStatus(j').Exited?);
    var h', jobs' := h1.(out := h1.out + [t]), Drop(jobs, i);
    PidFacts(jobs, next, h, i, 0);
    assert JobOk(h, j);
    OnlyOneLeft(h, j, st);
    SameNumber(j, 0, st);
    assert j'.lead == j.lead;
    NotesFrame(h, pid, st);
    NotAllGone(h, j.number, pid);
    NotesOneMore(h1, t);
    hide JobOk, NotesOk, AnyStopped, Shrunk, NoteOk;
    forall a | 0 <= a < |jobs'| ensures JobOk(h', jobs'[a]) {
      var b := if a < i then a else a + 1;
      assert JobOk(h, jobs[b]) && jobs[b].number != j.number && jobs'[a] == jobs[b];
      NumberKnown(h, jobs[b]);
      OtherOk(h, jobs[b], pid, st);
      JobOkOut(h1, h'.out, jobs[b]);
    }
    DropListed(jobs, i, 0);
    forall n | n in h.born ensures (Listed(jobs', n) <==> !AllGone(h', n)) && (Told(h'.out, n) <==> AllGone(h', n)) {
      DropListed(jobs, i, n);
      ToldOneMore(h1.out, t, n);
      assert AllGone(h', n) <==> AllGone(h1, n);
      if n != j.number { OtherGone(h, n, pid, st); }
    }
  }

  lemma NotAllGone(h: Hist, n: int, pid: int)
    requires n in h.born && pid in h.born[n] && pid !in h.gone
    ensures !AllGone(h, n)
  {
  }

  // ----- a process stops or continues --------------------------------------------------------------------

  function Flagged(j: Job, k: int, stopped: bool): Job
    requires 0 <= k < |j.procs|
  {
    var procs := j.procs[k := j.procs[k].(stopped := stopped)];
    j.(procs := procs, stopped := AnyStopped(procs))
  }

  lemma FlagHas(procs: seq<Proc>, k: int, b: bool, p: int)
    requires 0 <= k < |procs|
    ensures HasProc(procs[k := procs[k].(stopped := b)], p) <==> HasProc(procs, p)
  {
    var ps := procs[k := procs[k].(stopped := b)];
    if HasProc(procs, p) {
      var a :| 0 <= a < |procs| && procs[a].pid == p;
      assert ps[a].pid == p;
    }
  }

  lemma FlagKeeps(jobs: seq<Job>, next: int, h: Hist, i: int, k: int, b: bool)
    requires Inv(jobs, next, h) && 0 <= i < |jobs| && 0 <= k < |jobs[i].procs|
    ensures Inv(jobs[i := Flagged(jobs[i], k, b)], next, h)
  {
    var j, j' := jobs[i], Flagged(jobs[i], k, b);
    var jobs' := jobs[i := j'];
    assert JobOk(h, j);
    forall p ensures HasProc(j'.procs, p) <==> HasProc(j.procs, p) { FlagHas(j.procs, k, b, p); }
    assert JobOk(h, j');
    hide JobOk, NotesOk, AllGone;
    forall n ensures Listed(jobs', n) <==> Listed(jobs, n) { ListedUpdate(jobs, i, j', n); }
  }

  // ----- a job starts ------------------------------------------------------------------------------------

  predicate Fresh(h: Hist, pids: seq<int>) {
    && (forall p :: p in pids ==> p !in h.gone)
    && (forall n :: n in h.born ==> forall p :: p in pids ==> p !in h.born[n])
  }

  function NewProcs(pids: seq<int>, stopped: bool): (ps: seq<Proc>)
    ensures |ps| == |pids| && forall k :: 0 <= k < |pids| ==> ps[k] == Proc(pids[k], stopped)
  {
    seq(|pids|, k requires 0 <= k < |pids| => Proc(pids[k], stopped))
  }

  function NewJob(number: int, pids: seq<int>, stopped: bool): Job
    requires pids != []
  {
    Job(number, pids[0], NewProcs(pids, stopped), Exited(0), false, Exited(0), stopped)
  }

  ghost function Started(h: Hist, number: int, pids: seq<int>): Hist { h.(born := h.born[number := pids]) }

  lemma NewJobOk(h: Hist, number: int, pids: seq<int>, stopped: bool)
    requires 1 <= |pids| <= MAX_JOB_PROCS && Distinct(pids) && Fresh(h, pids)
    ensures JobOk(Started(h, number, pids), NewJob(number, pids, stopped))
  {
    var j := NewJob(number, pids, stopped);
    forall p ensures HasProc(j.procs, p) <==> p in pids {
      if p in pids {
        var k :| 0 <= k < |pids| && pids[k] == p;
        assert j.procs[k].pid == p;
      }
    }
    if stopped { assert j.procs[0].stopped; }
  }

  lemma StartFrame(h: Hist, number: int, pids: seq<int>, j: Job)
    requires JobOk(h, j) && j.number != number
    ensures JobOk(Started(h, number, pids), j)
  {
    hide AnyStopped, HasProc, DistinctProcs;
  }

  lemma StartKeeps(jobs: seq<Job>, next: int, h: Hist, pids: seq<int>, stopped: bool)
    requires Inv(jobs, next, h) && 0 <= next && |jobs| < MAX_BG_JOBS
    requires 1 <= |pids| <= MAX_JOB_PROCS && Distinct(pids) && Fresh(h, pids)
    ensures Inv(jobs + [NewJob(next + 1, pids, stopped)], next + 1, Started(h, next + 1, pids))
  {
    var number, j := next + 1, NewJob(next + 1, pids, stopped);
    var jobs', h' := jobs + [j], Started(h, number, pids);
    NewJobOk(h, number, pids, stopped);
    StillSomeone(h', j);
    assert j.number == number;
    assert NotesOk(h') by {
      forall m | 0 <= m < |h.out| ensures NoteOk(h', h'.out[m]) { assert NoteOk(h, h.out[m]); }
    }
    forall i | 0 <= i < |jobs| ensures jobs[i].number in h.born && jobs[i].number <= next { NumberKnown(h, jobs[i]); }
    forall m | 0 <= m < |h.out| ensures h.out[m].number in h.born { assert NoteOk(h, h.out[m]); }
    hide JobOk, NotesOk, NewJob, NoteOk;
    forall i | 0 <= i < |jobs'| ensures JobOk(h', jobs'[i]) {
      if i < |jobs| {
        assert JobOk(h, jobs[i]);
        StartFrame(h, number, pids, jobs[i]);
      }
    }
    assert Apart(h');
    forall n | n in h'.born ensures (Listed(jobs', n) <==> !AllGone(h', n)) && (Told(h'.out, n) <==> AllGone(h', n)) {
      ListedOneMore(jobs, j, n);
      if n != number { assert AllGone(h', n) <==> AllGone(h, n); }
    }
  }

  lemma ListedOneMore(jobs: seq<Job>, j: Job, n: int)
    ensures Listed(jobs + [j], n) <==> Listed(jobs, n) || n == j.number
  {
    var js := jobs + [j];
    assert js[|jobs|] == j;
    if Listed(jobs, n) {
      var a :| 0 <= a < |jobs| && jobs[a].number == n;
      assert js[a].number == n;
    }
  }

  // ----- recording a status ---------------------------------------------------------------------------------

  datatype Table = Table(jobs: seq<Job>, next: int, h: Hist)

  ghost predicate Good(t: Table) { t.next >= 0 && Inv(t.jobs, t.next, t.h) }

  /** The first job from i on that has the process, or the end. */
  function FindJob(jobs: seq<Job>, pid: int, i: int): (r: int)
    requires 0 <= i <= |jobs|
    ensures i <= r <= |jobs| && (r < |jobs| ==> HasProc(jobs[r].procs, pid))
    ensures forall a :: i <= a < r ==> !HasProc(jobs[a].procs, pid)
    decreases |jobs| - i
  {
    if i == |jobs| || HasProc(jobs[i].procs, pid) then i else FindJob(jobs, pid, i + 1)
  }

  function FindProc(procs: seq<Proc>, pid: int, k: int): (r: int)
    requires 0 <= k <= |procs|
    ensures k <= r <= |procs| && (r < |procs| ==> procs[r].pid == pid)
    ensures forall a :: k <= a < r ==> procs[a].pid != pid
    decreases |procs| - k
  {
    if k == |procs| || procs[k].pid == pid then k else FindProc(procs, pid, k + 1)
  }

  lemma FindsProc(procs: seq<Proc>, pid: int)
    ensures HasProc(procs, pid) <==> FindProc(procs, pid, 0) < |procs|
  {
  }

  ghost function Record(t: Table, pid: int, st: Status): Table {
    var i := FindJob(t.jobs, pid, 0);
    if i == |t.jobs| then t else
      FindsProc(t.jobs[i].procs, pid);
      RecordAt(t, i, FindProc(t.jobs[i].procs, pid, 0), st)
  }

  ghost function RecordAt(t: Table, i: int, k: int, st: Status): Table
    requires 0 <= i < |t.jobs| && 0 <= k < |t.jobs[i].procs|
  {
    var j := t.jobs[i];
    if !IsExit(st) then t.(jobs := t.jobs[i := Flagged(j, k, st.Stopped?)])
    else if |j.procs| > 1 then
      Table(t.jobs[i := Shrunk(j, k, st)], t.next, Ended(t.h, j.procs[k].pid, st))
    else
      Table(Drop(t.jobs, i), t.next, Told1(Ended(t.h, j.procs[k].pid, st), Shrunk(j, k, st)))
  }

  lemma RecordKeeps(t: Table, pid: int, st: Status)
    requires Good(t)
    ensures Good(Record(t, pid, st))
  {
    hide Inv, JobOk;
    var i := FindJob(t.jobs, pid, 0);
    if i < |t.jobs| {
      FindsProc(t.jobs[i].procs, pid);
      RecordAtKeeps(t, i, FindProc(t.jobs[i].procs, pid, 0), st);
    }
  }

  lemma RecordAtKeeps(t: Table, i: int, k: int, st: Status)
    requires Good(t) && 0 <= i < |t.jobs| && 0 <= k < |t.jobs[i].procs|
    ensures Good(RecordAt(t, i, k, st))
  {
    hide Inv;
    if !IsExit(st) {
      FlagKeeps(t.jobs, t.next, t.h, i, k, st.Stopped?);
    } else if |t.jobs[i].procs| > 1 {
      ExitKeeps(t.jobs, t.next, t.h, i, k, st);
    } else {
      LastExitKeeps(t.jobs, t.next, t.h, i, st);
    }
  }

  /** A process of a job that has not ended yet. */
  ghost predicate Tracked(h: Hist, pid: int) { exists n :: n in h.born && pid in h.born[n] && pid !in h.gone }

  lemma TrackedIsFound(t: Table, pid: int)
    requires Good(t)
    ensures Tracked(t.h, pid) <==> FindJob(t.jobs, pid, 0) < |t.jobs|
  {
    var r := FindJob(t.jobs, pid, 0);
    if r < |t.jobs| { assert JobOk(t.h, t.jobs[r]); }
    if Tracked(t.h, pid) {
      var n :| n in t.h.born && pid in t.h.born[n] && pid !in t.h.gone;
      NotAllGone(t.h, n, pid);
      assert Listed(t.jobs, n);
      var i :| 0 <= i < |t.jobs| && t.jobs[i].number == n;
      assert JobOk(t.h, t.jobs[i]);
      assert HasProc(t.jobs[i].procs, pid);
    }
  }

  /** What recording does to history: an exit of a tracked process is written down, and nothing
      else; a line is printed exactly when that leaves the job without processes. */
  lemma RecordHistory(t: Table, pid: int, st: Status)
    requires Good(t)
    ensures var t' := Record(t, pid, st);
      && t'.h.born == t.h.born && t'.next == t.next
      && t'.h.gone == (if IsExit(st) && Tracked(t.h, pid) then t.h.gone[pid := st] else t.h.gone)
      && (t'.h.out == t.h.out || exists n :: LastOf(t.h, t'.h, n, pid))
  {
    TrackedIsFound(t, pid);
    var i := FindJob(t.jobs, pid, 0);
    if i < |t.jobs| {
      FindsProc(t.jobs[i].procs, pid);
      var k := FindProc(t.jobs[i].procs, pid, 0);
      if IsExit(st) && |t.jobs[i].procs| == 1 {
        PidFacts(t.jobs, t.next, t.h, i, k);
        assert JobOk(t.h, t.jobs[i]);
        OnlyOneLeft(t.h, t.jobs[i], st);
        assert LastOf(t.h, Record(t, pid, st).h, t.jobs[i].number, pid);
      }
    }
  }

  /** One line was added, for job n, whose last process pid is. */
  ghost predicate LastOf(h: Hist, h': Hist, n: int, pid: int) {
    && n in h.born && n in h'.born && pid in h.born[n] && !AllGone(h, n) && AllGone(h', n)
    && h.born[n] != [] && h.born[n][0] in h'.gone
    && h'.out == h.out + [Note(n, h.born[n][0], h'.gone[h.born[n][0]].Exited?)]
  }
}
