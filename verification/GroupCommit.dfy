/** Group commit (kernel/log.c): begin_op, log_write, end_op and sys_sync, run by any
    number of concurrent operations.  Each step is one section under log.lock. */
module GroupCommit {
  import opened Basics
  import opened LogDisk

  // ----- one section at a time, on the log structure itself ----------------------

  /** The fields of struct log that the protocol uses; lh stands for lh.block[..lh.n]. */
  datatype Log = Log(lh: seq<int>, outstanding: int, committing: bool, ncommit: nat)

  datatype Written = TooBig | OutsideTransaction | Logged(log: Log, pin: bool)

  predicate Admits(l: Log) {
    !l.committing && |l.lh| + (l.outstanding + 1) * MAXOPBLOCKS <= LOGBLOCKS
  }

  /** log_write: the size test comes first, even for a block that is absorbed. */
  function LogWrite(l: Log, b: int): Written {
    if |l.lh| >= LOGBLOCKS then TooBig
    else if l.outstanding < 1 then OutsideTransaction
    else if b in l.lh then Logged(l, false)
    else Logged(l.(lh := l.lh + [b]), true)
  }

  /** end_op up to the release of log.lock: the last one out commits. */
  function Leave(l: Log): Log {
    var n := l.outstanding - 1;
    l.(outstanding := n, committing := n == 0)
  }

  /** The in-memory log of kernel/log.c. */
  class LogState {
    const block: array<int>
    var n: nat
    var outstanding: int
    var committing: bool
    var ncommit: nat

    ghost predicate Valid()
      reads this
    {
      block.Length == LOGBLOCKS && n <= LOGBLOCKS
    }

    function View(): Log
      requires Valid()
      reads this, block
    {
      Log(block[..n], outstanding, committing, ncommit)
    }

    constructor ()
      ensures Valid() && fresh(block) && View() == Log([], 0, false, 0)
    {
      block := new int[LOGBLOCKS];
      n, outstanding, committing, ncommit := 0, 0, false, 0;
    }

    /** One turn of begin_op's loop; false means the caller sleeps and tries again. */
    method TryBeginOp() returns (admitted: bool)
      requires Valid()
      modifies this`outstanding
      ensures Valid() && admitted == old(Admits(View()))
      ensures View() == if admitted then old(View()).(outstanding := old(outstanding) + 1) else old(View())
    {
      if committing {
        admitted := false;
      } else if n + (outstanding + 1) * MAXOPBLOCKS > LOGBLOCKS {
        admitted := false;
      } else {
        outstanding := outstanding + 1;
        admitted := true;
      }
    }

    /** r is what the kernel does: panic, absorb, or append and pin. */
    method Write(b: int) returns (r: Written)
      requires Valid()
      modifies this`n, block
      ensures Valid() && r == LogWrite(old(View()), b)
      ensures View() == if r.Logged? then r.log else old(View())
    {
      if n >= LOGBLOCKS { return TooBig; }
      if outstanding < 1 { return OutsideTransaction; }
      ghost var before := View();
      var i := 0;
      while i < n && block[i] != b
        invariant 0 <= i <= n
        invariant forall k :: 0 <= k < i ==> block[k] != b
      {
        i := i + 1;
      }
      block[i] := b;
      if i == n {
        n := n + 1;
        assert block[..n] == before.lh + [b];
        r := Logged(View(), true);
      } else {
        assert block[..n] == before.lh;
        r := Logged(View(), false);
      }
    }

    /** end_op's first section; the panic is unreachable by CommitExcludesOps. */
    method EndOp() returns (panic: bool, doCommit: bool)
      requires Valid()
      modifies this`outstanding, this`committing
      ensures Valid() && panic == old(committing)
      ensures !panic ==> View() == Leave(old(View())) && doCommit == committing
    {
      outstanding := outstanding - 1;
      if committing { return true, false; }
      panic := false;
      doCommit := outstanding == 0;
      if doCommit {
        committing := true;
      }
    }

    /** commit() has emptied the log; end_op's second section. */
    method FinishCommit()
      requires Valid()
      modifies this`committing, this`ncommit
      ensures Valid() && View() == old(View()).(committing := false, ncommit := old(ncommit) + 1)
    {
      committing := false;
      ncommit := ncommit + 1;
    }

    /** sys_sync: the commit count to wait for, or 0 when it need not wait. */
    method SyncTarget() returns (target: nat)
      requires Valid()
      ensures target == SyncGoal(View())
    {
      if committing || outstanding > 0 {
        target := ncommit + 1;
      } else {
        target := 0;
      }
    }
  }

  function SyncGoal(l: Log): nat {
    if l.committing || l.outstanding > 0 then l.ncommit + 1 else 0
  }

  // ----- all interleavings ---------------------------------------------------------

  /** A sync call in progress: the count it waits for and the operations that had
      passed end_op's decrement when it was called. */
  datatype Sync = Sync(target: nat, promised: set<nat>)

  /** The log together with what each operation is doing: the blocks written so far by
      every running operation, the operations that have ended but are not yet on disk,
      those that are, and the sync calls still waiting. */
  datatype State = State(log: Log, active: map<nat, set<int>>, ended: set<nat>, durable: set<nat>, syncs: map<nat, Sync>)

  const Initial := State(Log([], 0, false, 0), map[], {}, {}, map[])

  datatype Step =
    | Begin(op: nat)
    | Put(op: nat, b: int)
    | End(op: nat)
    | CommitWork          // commit(): the group reaches the disk, the log is emptied
    | Finish              // end_op's second section
    | SyncCall(id: nat)
    | SyncReturn(id: nat)

  /** The caller's promise: an operation writes at most MAXOPBLOCKS distinct blocks. */
  predicate WithinBudget(s: State, op: nat, b: int)
    requires op in s.active
  {
    |s.active[op] + {b}| <= MAXOPBLOCKS
  }

  predicate Enabled(s: State, step: Step) {
    match step
    case Begin(op) => Admits(s.log) && op !in s.active && op !in s.ended && op !in s.durable
    case Put(op, b) => op in s.active && WithinBudget(s, op, b) && LogWrite(s.log, b).Logged?
    case End(op) => op in s.active && !s.log.committing
    case CommitWork => s.log.committing
    case Finish => s.log.committing && s.log.lh == [] && s.ended == {}
    case SyncCall(id) => id !in s.syncs
    case SyncReturn(id) => id in s.syncs && s.log.ncommit >= s.syncs[id].target
  }

  function Do(s: State, step: Step): State
    requires Enabled(s, step)
  {
    match step
    case Begin(op) => s.(log := s.log.(outstanding := s.log.outstanding + 1), active := s.active[op := {}])
    case Put(op, b) => s.(log := LogWrite(s.log, b).log, active := s.active[op := s.active[op] + {b}])
    case End(op) => s.(log := Leave(s.log), active := s.active - {op}, ended := s.ended + {op})
    case CommitWork => s.(log := s.log.(lh := []), ended := {}, durable := s.durable + s.ended)
    case Finish => s.(log := s.log.(committing := false, ncommit := s.log.ncommit + 1))
    case SyncCall(id) => s.(syncs := s.syncs[id := Sync(SyncGoal(s.log), s.ended + s.durable)])
    case SyncReturn(id) => s.(syncs := s.syncs - {id})
  }

  /** States reached by some interleaving. */
  ghost predicate Reached(s: State, steps: seq<Step>)
    decreases |steps|
  {
    if steps == [] then s == Initial
    else
      var last := steps[|steps| - 1];
      exists p :: Reached(p, steps[..|steps| - 1]) && Enabled(p, last) && Do(p, last) == s
  }

  /** Log space still promised to the running operations. */
  ghost function Reserved(m: map<nat, set<int>>): int {
    if m == map[] then 0
    else
      var k :| k in m;
      MAXOPBLOCKS - |m[k]| + Reserved(m - {k})
  }

  lemma {:induction false} ReservedRemove(m: map<nat, set<int>>, k: nat)
    requires k in m
    ensures Reserved(m) == MAXOPBLOCKS - |m[k]| + Reserved(m - {k})
    decreases |m|
  {
    var c :| c in m && Reserved(m) == MAXOPBLOCKS - |m[c]| + Reserved(m - {c});
    if c != k {
      ReservedRemove(m - {c}, k);
      ReservedRemove(m - {k}, c);
      assert m - {c} - {k} == m - {k} - {c};
    }
  }

  lemma ReservedUpdate(m: map<nat, set<int>>, k: nat, w: set<int>)
    ensures Reserved(m[k := w]) == MAXOPBLOCKS - |w| + Reserved(m - {k})
  {
    assert m[k := w] - {k} == m - {k};
    ReservedRemove(m[k := w], k);
  }

  lemma {:induction false} ReservedBounds(m: map<nat, set<int>>)
    requires forall k :: k in m ==> |m[k]| <= MAXOPBLOCKS
    ensures 0 <= Reserved(m) <= |m| * MAXOPBLOCKS
    decreases |m|
  {
    if m != map[] {
      var k :| k in m;
      ReservedRemove(m, k);
      ReservedBounds(m - {k});
    }
  }

  ghost predicate Inv(s: State) {
    && s.log.outstanding == |s.active|
    && Distinct(s.log.lh)
    && (forall op :: op in s.active ==> |s.active[op]| <= MAXOPBLOCKS)
    && (forall op, b :: op in s.active && b in s.active[op] ==> b in s.log.lh)
    && |s.log.lh| + Reserved(s.active) <= LOGBLOCKS
    && (s.log.committing ==> s.active == map[])
    && (!s.log.committing && s.active == map[] ==> s.log.lh == [] && s.ended == {})
    && (forall id :: id in s.syncs ==> SyncInv(s, s.syncs[id]))
  }

  /** Until its commit has happened, a sync's operations are on disk or in the group
      about to be written. */
  ghost predicate SyncInv(s: State, c: Sync) {
    && c.promised <= s.ended + s.durable
    && s.log.ncommit + 1 >= c.target
    && (s.log.ncommit >= c.target ==> c.promised <= s.durable)
  }

  lemma StepKeepsInv(s: State, step: Step)
    requires Inv(s) && Enabled(s, step)
    ensures Inv(Do(s, step))
  {
    var t := Do(s, step);
    match step {
      case Begin(op) => BeginKeepsInv(s, op);
      case Put(op, b) => WriteKeepsInv(s, op, b);
      case End(op) => EndKeepsInv(s, op);
      case _ =>
    }
  }

  lemma BeginKeepsInv(s: State, op: nat)
    requires Inv(s) && Enabled(s, Begin(op))
    ensures Inv(Do(s, Begin(op)))
  {
    var t := Do(s, Begin(op));
    ReservedBounds(t.active);
    assert op in t.active;
  }

  lemma WriteKeepsInv(s: State, op: nat, b: int)
    requires Inv(s) && Enabled(s, Put(op, b))
    ensures Inv(Do(s, Put(op, b)))
  {
    ReservedRemove(s.active, op);
    ReservedUpdate(s.active, op, s.active[op] + {b});
    var t := Do(s, Put(op, b));
    assert t.active.Keys == s.active.Keys;
    assert op in t.active;
    if b in s.active[op] {
      assert s.active[op] + {b} == s.active[op];
    }
  }

  lemma EndKeepsInv(s: State, op: nat)
    requires Inv(s) && Enabled(s, End(op))
    ensures Inv(Do(s, End(op)))
  {
    ReservedRemove(s.active, op);
    var t := Do(s, End(op));
    assert t.active.Keys == s.active.Keys - {op};
  }

  lemma {:induction false} ReachedInv(s: State, steps: seq<Step>)
    requires Reached(s, steps)
    ensures Inv(s)
    decreases |steps|
  {
    if steps == [] {
      assert Reserved(map[]) == 0;
    } else {
      var last := steps[|steps| - 1];
      var p :| Reached(p, steps[..|steps| - 1]) && Enabled(p, last) && Do(p, last) == s;
      ReachedInv(p, steps[..|steps| - 1]);
      StepKeepsInv(p, last);
    }
  }

  // ----- what the invariant gives ----------------------------------------------------

  /** In every interleaving: the log fits, a commit excludes running operations (so
      end_op's panic is unreachable), and an idle system has nothing left to commit. */
  lemma CommitExcludesOps(s: State, steps: seq<Step>)
    requires Reached(s, steps)
    ensures |s.log.lh| <= LOGBLOCKS && Distinct(s.log.lh)
    ensures s.log.committing ==> s.active == map[] && s.log.outstanding == 0
    ensures !s.log.committing && s.log.outstanding == 0 ==> s.log.lh == [] && s.ended == {}
  {
    ReachedInv(s, steps);
    ReservedBounds(s.active);
  }

  /** log_write within the budget panics exactly when the log is full; and then the
      block is one this operation has already written, and every running operation has
      used up its whole budget.  In particular an append never panics. */
  lemma LogWritePanicsExactlyWhenFull(s: State, steps: seq<Step>, op: nat, b: int)
    requires Reached(s, steps) && op in s.active && WithinBudget(s, op, b)
    ensures !LogWrite(s.log, b).Logged? <==> |s.log.lh| == LOGBLOCKS
    ensures !LogWrite(s.log, b).Logged? ==>
      b in s.active[op] && forall o :: o in s.active ==> |s.active[o]| == MAXOPBLOCKS
    ensures b !in s.log.lh ==> LogWrite(s.log, b).Logged?
  {
    ReachedInv(s, steps);
    ReservedBounds(s.active);
    forall o | o in s.active && |s.active[o]| < MAXOPBLOCKS ensures |s.log.lh| < LOGBLOCKS {
      ReservedRemove(s.active, o);
      ReservedBounds(s.active - {o});
    }
  }

  /** When sys_sync may return, everything that had ended before the call is on disk. */
  lemma SyncIsDurable(s: State, steps: seq<Step>, id: nat)
    requires Reached(s, steps) && Enabled(s, SyncReturn(id))
    ensures s.syncs[id].promised <= s.durable
  {
    ReachedInv(s, steps);
  }

  // ----- operations that stay below their budget ------------------------------------------------------

  /** Every log_write leaves its operation with fewer than MAXOPBLOCKS distinct blocks. */
  predicate Modest(s: State, step: Step) {
    match step
    case Put(op, b) => op in s.active && |s.active[op] + {b}| < MAXOPBLOCKS
    case _ => true
  }

  /** States reached by modest operations. */
  ghost predicate ModestlyReached(s: State, steps: seq<Step>)
    decreases |steps|
  {
    if steps == [] then s == Initial
    else
      var last := steps[|steps| - 1];
      exists p :: ModestlyReached(p, steps[..|steps| - 1]) && Enabled(p, last) && Modest(p, last) && Do(p, last) == s
  }

  ghost predicate RoomLeft(s: State) {
    |s.log.lh| < LOGBLOCKS && forall op :: op in s.active ==> |s.active[op]| < MAXOPBLOCKS
  }

  lemma ModestStep(s: State, step: Step)
    requires Inv(s) && RoomLeft(s) && Enabled(s, step) && Modest(s, step)
    ensures RoomLeft(Do(s, step))
  {
    var t := Do(s, step);
    StepKeepsInv(s, step);
    if step.Put? {
      ReservedRemove(t.active, step.op);
      ReservedBounds(t.active - {step.op});
    }
  }

  lemma {:induction false} ModestInv(s: State, steps: seq<Step>)
    requires ModestlyReached(s, steps)
    ensures Inv(s) && RoomLeft(s)
    decreases |steps|
  {
    hide Inv, RoomLeft;
    if steps == [] {
      ReachedInv(s, steps);
      InitialRoom();
    } else {
      var last := steps[|steps| - 1];
      var p :| ModestlyReached(p, steps[..|steps| - 1]) && Enabled(p, last) && Modest(p, last) && Do(p, last) == s;
      ModestInv(p, steps[..|steps| - 1]);
      StepKeepsInv(p, last);
      ModestStep(p, last);
    }
  }

  lemma InitialRoom()
    ensures RoomLeft(Initial)
  {
  }

  /** In every interleaving of operations that each log fewer than MAXOPBLOCKS blocks, as
      filewrite's do, no log_write panics, and the log never fills the buffer cache: commit() of it
      finds its buffers whenever nobody else holds one. */
  lemma ModestNeverPanics(s: State, steps: seq<Step>, op: nat, b: int)
    requires ModestlyReached(s, steps)
    ensures |s.log.lh| < LOGBLOCKS == NBUF
    ensures op in s.active ==> LogWrite(s.log, b).Logged?
  {
    ModestInv(s, steps);
    hide Reserved;
    if op in s.active { assert s.active.Keys != {}; }
  }

  // ----- the full log is reachable -----------------------------------------------------

  lemma ReachedStep(s: State, steps: seq<Step>, step: Step)
    requires Reached(s, steps) && Enabled(s, step)
    ensures Reached(Do(s, step), steps + [step])
  {
    var all := steps + [step];
    assert all[..|all| - 1] == steps && all[|all| - 1] == step;
    assert Reached(s, all[..|all| - 1]);
  }

  /** Three operations are running; together they have written blocks 0..k-1, operation 0
      the first ten of them, operation 1 the next ten, operation 2 the rest. */
  ghost predicate Filling(s: State, k: nat) {
    && s.active.Keys == {0, 1, 2} && s.log.outstanding == 3 && !s.log.committing
    && |s.log.lh| == k && (forall i :: 0 <= i < k ==> 0 <= s.log.lh[i] < k)
    && forall i :: i in s.active ==> |s.active[i]| == Clamp(k - 10 * i)
  }

  function Clamp(n: int): int { if n < 0 then 0 else if n < 10 then n else 10 }

  /** Operations 0, ..., i - 1 have begun. */
  ghost function Begun(i: nat): State {
    State(Log([], i, false, 0), map j: nat | j in Below(i) :: {}, {}, {}, map[])
  }

  lemma BegunStep(i: nat)
    requires i < 3
    ensures Enabled(Begun(i), Begin(i)) && Do(Begun(i), Begin(i)) == Begun(i + 1)
  {
    hide Below;
    assert (Begun(i).active)[i := {}] == Begun(i + 1).active;
  }

  lemma BeginThree() returns (s: State, steps: seq<Step>)
    ensures Reached(s, steps) && Filling(s, 0)
  {
    hide Begun;
    BegunNone();
    s, steps := Initial, [];
    var i := 0;
    while i < 3
      invariant 0 <= i <= 3 && Reached(s, steps) && s == Begun(i)
    {
      BegunStep(i);
      ReachedStep(s, steps, Begin(i));
      s, steps := Do(s, Begin(i)), steps + [Begin(i)];
      i := i + 1;
    }
    BegunFilling();
  }

  lemma BegunNone()
    ensures Begun(0) == Initial
  {
  }

  lemma BegunFilling()
    ensures Filling(Begun(3), 0)
  {
    hide Below;
    assert Begun(3).active.Keys == {0, 1, 2};
  }

  lemma NotYetWritten(s: State, steps: seq<Step>, op: nat, k: nat)
    requires Reached(s, steps) && Filling(s, k) && op in s.active
    ensures k !in s.log.lh && k !in s.active[op]
  {
    ReachedInv(s, steps);
  }

  lemma FillOne(s: State, op: nat, k: nat)
    requires Filling(s, k) && k < LOGBLOCKS && op < 3 && 10 * op <= k < 10 * op + 10
    requires k !in s.log.lh && k !in s.active[op]
    ensures Enabled(s, Put(op, k)) && Filling(Do(s, Put(op, k)), k + 1)
  {
    hide Clamp;
    var w := s.active[op] + {k};
    assert |w| == |s.active[op]| + 1;
    ClampStep(k, op);
    var t := Do(s, Put(op, k));
    assert t.active.Keys == s.active.Keys;
    assert t.log.lh == s.log.lh + [k];
    forall i | i in t.active ensures |t.active[i]| == Clamp(k + 1 - 10 * i) { ClampOther(k, op, i); }
  }

  lemma ClampStep(k: nat, op: nat)
    requires 10 * op <= k < 10 * op + 10
    ensures Clamp(k + 1 - 10 * op) == Clamp(k - 10 * op) + 1 <= MAXOPBLOCKS
  {
  }

  lemma ClampOther(k: nat, op: nat, i: nat)
    requires 10 * op <= k < 10 * op + 10
    ensures i != op ==> Clamp(k + 1 - 10 * i) == Clamp(k - 10 * i)
  {
  }

  /** The exception is real: three operations, each within its budget, fill the log, and
      then rewriting a block already in it panics although nothing would be appended. */
  lemma AbsorbedWriteCanPanic() returns (s: State, steps: seq<Step>, op: nat, b: int)
    ensures Reached(s, steps) && op in s.active && WithinBudget(s, op, b)
    ensures b in s.log.lh && LogWrite(s.log, b) == TooBig
  {
    s, steps := BeginThree();
    var k := 0;
    while k < LOGBLOCKS
      invariant 0 <= k <= LOGBLOCKS && Reached(s, steps) && Filling(s, k)
    {
      op := if k < 10 then 0 else if k < 20 then 1 else 2;
      NotYetWritten(s, steps, op, k);
      FillOne(s, op, k);
      ReachedStep(s, steps, Put(op, k));
      s, steps := Do(s, Put(op, k)), steps + [Put(op, k)];
      k := k + 1;
    }
    ReachedInv(s, steps);
    op := 0;
    b := Repeat(s);
  }

  lemma Repeat(s: State) returns (b: int)
    requires Inv(s) && Filling(s, LOGBLOCKS)
    ensures WithinBudget(s, 0, b) && b in s.log.lh
  {
    var w := s.active[0];
    assert |w| == Clamp(LOGBLOCKS) == 10;
    b := Pick(w);
    assert w + {b} == w;
  }
}
