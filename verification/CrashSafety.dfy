/** Group commit, the redo log and crashes together (kernel/log.c): what is on the disk after a
    crash at any point of any run, in terms of whole operations. */
module CrashSafety {
  import opened Basics
  import G = GroupCommit
  import opened LogDisk

  /** One log_write: the operation, the block, and its new contents. */
  datatype Entry = Entry(op: nat, b: int, x: Block)

  /** The log structure; the disk when the last commit was complete, how many writes of the next one
      have been made since, and the disk they have led to; the contents the file system sees; the
      history of all log_writes that are not lost, the operations promised by syncs that have
      returned, and the home blocks at the very beginning. */
  datatype World = World(g: G.State, base: Disk, k: nat, d: Disk, mem: map<int, Block>,
                         writes: seq<Entry>, synced: set<nat>, first: map<int, Block>)

  datatype Step =
    | Begin(op: nat)
    | Put(op: nat, b: int, x: Block)
    | End(op: nat)
    | DiskWrite                      // the next write of commit()
    | CommitWork                     // commit() is through
    | Finish
    | SyncCall(id: nat)
    | SyncReturn(id: nat)
    | Crash(cuts: seq<nat>)          // and recovery, cut short any number of times

  // ----- the meaning of a set of operations ------------------------------------------------------------

  /** The home blocks after the log_writes of the operations in `ops`, in order. */
  function Effect(first: map<int, Block>, writes: seq<Entry>, ops: set<nat>): map<int, Block> {
    if writes == [] then first else
      var e, before := writes[|writes| - 1], Effect(first, writes[..|writes| - 1], ops);
      if e.op in ops then before[e.b := e.x] else before
  }

  function Only(writes: seq<Entry>, ops: set<nat>): seq<Entry> {
    if writes == [] then [] else
      var e, before := writes[|writes| - 1], Only(writes[..|writes| - 1], ops);
      if e.op in ops then before + [e] else before
  }

  ghost predicate By(writes: seq<Entry>, ops: set<nat>) { forall i :: 0 <= i < |writes| ==> writes[i].op in ops }

  lemma EffectSnoc(first: map<int, Block>, writes: seq<Entry>, e: Entry, ops: set<nat>)
    ensures var before := Effect(first, writes, ops);
      Effect(first, writes + [e], ops) == if e.op in ops then before[e.b := e.x] else before
  {
    assert (writes + [e])[..|writes|] == writes;
  }

  /** Only the operations that wrote matter. */
  lemma {:induction false} EffectSame(first: map<int, Block>, writes: seq<Entry>, ops: set<nat>, more: set<nat>)
    requires forall i :: 0 <= i < |writes| ==> (writes[i].op in ops <==> writes[i].op in more)
    ensures Effect(first, writes, ops) == Effect(first, writes, more)
  {
    if writes != [] { EffectSame(first, writes[..|writes| - 1], ops, more); }
  }

  lemma OnlySnoc(writes: seq<Entry>, e: Entry, ops: set<nat>)
    ensures Only(writes + [e], ops) == if e.op in ops then Only(writes, ops) + [e] else Only(writes, ops)
  {
    assert (writes + [e])[..|writes|] == writes;
  }

  lemma BySnoc(writes: seq<Entry>, e: Entry, ops: set<nat>)
    requires By(writes, ops) && e.op in ops
    ensures By(writes + [e], ops)
  {
  }

  lemma {:induction false} OnlyEffect(first: map<int, Block>, writes: seq<Entry>, ops: set<nat>)
    ensures Effect(first, Only(writes, ops), ops) == Effect(first, writes, ops) && By(Only(writes, ops), ops)
  {
    if writes != [] {
      hide Effect, Only, By;
      var rest, e := writes[..|writes| - 1], writes[|writes| - 1];
      assert writes == rest + [e];
      OnlyEffect(first, rest, ops);
      OnlySnoc(rest, e, ops);
      EffectSnoc(first, rest, e, ops);
      if e.op in ops {
        EffectSnoc(first, Only(rest, ops), e, ops);
        BySnoc(Only(rest, ops), e, ops);
      }
    }
  }

  // ----- steps -----------------------------------------------------------------------------------------

  function Data(mem: map<int, Block>, lh: seq<int>): seq<Block>
    requires forall i :: 0 <= i < |lh| ==> lh[i] in mem
  {
    seq(|lh|, i requires 0 <= i < |lh| => mem[lh[i]])
  }

  /** The writes of the commit that is due. */
  predicate CanCommit(w: World, start: nat) {
    && Mountable(w.base, start) && |w.g.log.lh| <= LOGBLOCKS
    && forall i :: 0 <= i < |w.g.log.lh| ==> w.g.log.lh[i] in w.mem
  }

  function Due(w: World, start: nat): seq<Write>
    requires CanCommit(w, start)
  {
    CommitWrites(start, w.base[start], w.g.log.lh, Data(w.mem, w.g.log.lh))
  }

  /** The operations whose writes a recovery would find: all of the group once the first header
      write has been made. */
  function OnDisk(w: World): set<nat> {
    if w.k > |w.g.log.lh| then w.g.durable + w.g.ended else w.g.durable
  }

  function After(d: Disk, start: nat, cuts: seq<nat>): Disk
    requires Mountable(d, start)
  {
    Recover(RecoverCuts(d, start, cuts), start)
  }

  function Protocol(step: Step): G.Step
    requires !step.DiskWrite? && !step.Crash?
  {
    match step
    case Begin(op) => G.Begin(op)
    case Put(op, b, _) => G.Put(op, b)
    case End(op) => G.End(op)
    case CommitWork => G.CommitWork
    case Finish => G.Finish
    case SyncCall(id) => G.SyncCall(id)
    case SyncReturn(id) => G.SyncReturn(id)
  }

  predicate Enabled(w: World, start: nat, step: Step) {
    CanCommit(w, start) && Mountable(w.d, start) &&
    match step
    case DiskWrite => w.g.log.committing && w.k < |Due(w, start)|
    case Crash(_) => true
    case CommitWork => G.Enabled(w.g, G.CommitWork) && w.k == |Due(w, start)|
    case Put(op, b, _) => G.Enabled(w.g, G.Put(op, b)) && b in w.mem
    case _ => G.Enabled(w.g, Protocol(step))
  }

  function Do(w: World, start: nat, step: Step): World
    requires Enabled(w, start, step)
  {
    match step
    case DiskWrite =>
      var u := Due(w, start)[w.k];
      w.(d := w.d[u.blockno := u.data], k := w.k + 1)
    case Crash(cuts) =>
      var e := After(w.d, start, cuts);
      World(G.Initial.(durable := OnDisk(w)), e, 0, e, Home(e, start), Only(w.writes, OnDisk(w)), w.synced, w.first)
    case CommitWork => w.(g := G.Do(w.g, G.CommitWork), base := w.d, k := 0)
    case Put(op, b, x) => w.(g := G.Do(w.g, G.Put(op, b)), mem := w.mem[b := x], writes := w.writes + [Entry(op, b, x)])
    case SyncReturn(id) => w.(g := G.Do(w.g, G.SyncReturn(id)), synced := w.synced + w.g.syncs[id].promised)
    case _ => w.(g := G.Do(w.g, Protocol(step)))
  }

  /** A mounted disk with an empty log, nothing going on. */
  predicate Fresh(w: World, start: nat) {
    && Mountable(w.d, start) && Head(w.d, start) == []
    && w == World(G.Initial, w.d, 0, w.d, Home(w.d, start), [], {}, Home(w.d, start))
  }

  ghost predicate Next(w: World, start: nat, step: Step, w': World) { Enabled(w, start, step) && w' == Do(w, start, step) }

  ghost predicate IsRun(ws: seq<World>, steps: seq<Step>, start: nat) {
    && |ws| == |steps| + 1 && Fresh(ws[0], start)
    && forall n :: 0 <= n < |steps| ==> Next(ws[n], start, steps[n], ws[n + 1])
  }

  // ----- the invariant ------------------------------------------------------------------------------------

  /** The operations there are. */
  function Known(g: G.State): set<nat> { g.durable + g.ended + g.active.Keys }

  /** An operation is running, or has ended, or is on disk. */
  ghost predicate Phased(g: G.State) {
    g.active.Keys !! g.durable && g.active.Keys !! g.ended && g.ended !! g.durable
  }

  ghost predicate Phases(w: World) { Phased(w.g) && By(w.writes, Known(w.g)) && w.synced <= w.g.durable }

  /** The disk is part-way through the due commit, if one is running. */
  ghost predicate DiskOk(w: World, start: nat) {
    && CanCommit(w, start) && Head(w.base, start) == [] && Loggable(w.base, start, w.g.log.lh)
    && w.k <= |Due(w, start)| && (!w.g.log.committing ==> w.k == 0)
    && w.d == Apply(w.base, Cut(Due(w, start), w.k))
  }

  /** The disk at the last commit is what the durable operations did; the file system sees what all
      did; and they differ only in logged blocks. */
  ghost predicate MemOk(w: World, start: nat) {
    && Home(w.base, start) == Effect(w.first, w.writes, w.g.durable)
    && w.mem == Effect(w.first, w.writes, Known(w.g))
    && w.mem.Keys == Home(w.base, start).Keys
    && forall b :: b in w.mem && b !in w.g.log.lh ==> w.mem[b] == Home(w.base, start)[b]
  }

  ghost predicate Inv(w: World, start: nat) { G.Inv(w.g) && Phases(w) && DiskOk(w, start) && MemOk(w, start) }

  /** Home plus the logged blocks is what the file system sees. */
  lemma UpdatesGiveMem(w: World, start: nat)
    requires DiskOk(w, start) && MemOk(w, start)
    ensures Home(w.base, start) + Updates(w.g.log.lh, Data(w.mem, w.g.log.lh)) == w.mem
  {
  }

  /** What recovery makes of the disk now. */
  lemma DurableNow(w: World, start: nat)
    requires Inv(w, start)
    ensures Mountable(w.d, start) && Durable(w.d, start) == Effect(w.first, w.writes, OnDisk(w))
    ensures w.k == |Due(w, start)| ==> Head(w.d, start) == [] && Home(w.d, start) == w.mem
    ensures w.d.Keys == w.base.Keys
  {
    var lh, data := w.g.log.lh, Data(w.mem, w.g.log.lh);
    hide G.Inv;
    CommitPrefixDurable(w.base, start, lh, data, w.k);
    NoLogDurable(w.base, start);
    UpdatesGiveMem(w, start);
    DueSize(w, start);
    if w.k > |lh| {
      Committing(w);
      EffectSame(w.first, w.writes, OnDisk(w), Known(w.g));
    }
    if lh == [] { assert Cut(Due(w, start), w.k) == []; assert w.mem == Home(w.base, start); }
  }

  lemma DueSize(w: World, start: nat)
    requires CanCommit(w, start)
    ensures |Due(w, start)| == if w.g.log.lh == [] then 0 else 2 * |w.g.log.lh| + 2
  {
  }

  lemma Committing(w: World)
    requires G.Inv(w.g)
    ensures w.g.log.committing ==> w.g.active.Keys == {}
    ensures !w.g.log.committing && w.g.active == map[] ==> w.g.log.lh == []
  {
  }

  // ----- every step keeps it --------------------------------------------------------------------------------

  lemma ApplyOne(d: Disk, ws: seq<Write>, k: nat)
    requires k < |ws|
    ensures Apply(d, Cut(ws, k + 1)) == Apply(d, Cut(ws, k))[ws[k].blockno := ws[k].data]
  {
    assert Cut(ws, k) == ws[..k] && Cut(ws, k + 1) == ws[..k + 1];
    assert ws[..k + 1][..k] == ws[..k];
  }

  lemma DiskWriteKeeps(w: World, start: nat)
    requires Inv(w, start) && Enabled(w, start, DiskWrite)
    ensures Inv(Do(w, start, DiskWrite), start)
  {
    hide G.Inv, Phases, MemOk, Apply, Cut, CommitWrites;
    ApplyOne(w.base, Due(w, start), w.k);
    SameMem(w, Do(w, start, DiskWrite), start);
  }

  lemma SameMem(w: World, w': World, start: nat)
    requires w' == w.(d := w'.d, k := w'.k)
    ensures Phases(w') == Phases(w) && (Mountable(w.base, start) ==> MemOk(w', start) == MemOk(w, start))
  {
  }

  /** With no operation under way and an empty log, disk and file system's view agree. */
  lemma IdleOk(w: World, start: nat)
    requires w.g.log.lh == [] && w.g.ended == {} && w.g.active == map[] && w.k == 0 && w.d == w.base
    requires Mountable(w.base, start) && Head(w.base, start) == [] && w.mem == Home(w.base, start)
    requires w.mem == Effect(w.first, w.writes, w.g.durable) && By(w.writes, w.g.durable) && w.synced <= w.g.durable
    ensures Phases(w) && DiskOk(w, start) && MemOk(w, start)
  {
    hide Effect, Mountable, Home;
    assert Known(w.g) == w.g.durable;
    assert Loggable(w.base, start, []);
    assert Due(w, start) == [] && Cut([], 0) == [];
  }

  lemma CrashKeeps(w: World, start: nat, cuts: seq<nat>)
    requires Inv(w, start) && Enabled(w, start, Crash(cuts))
    ensures Inv(Do(w, start, Crash(cuts)), start)
  {
    hide Effect, Only, Recover, RecoverCuts, Mountable, Home, DiskOk, MemOk, Durable, By, Due, G.Inv;
    DurableNow(w, start);
    RecoveredHome(w.d, start, cuts);
    OnlyEffect(w.first, w.writes, OnDisk(w));
    IdleOk(Do(w, start, Crash(cuts)), start);
    RestartInv(OnDisk(w));
  }

  lemma RestartInv(durable: set<nat>)
    ensures G.Inv(G.Initial.(durable := durable))
  {
    assert G.Reserved(map[]) == 0;
  }

  lemma CommitWorkKeeps(w: World, start: nat)
    requires Inv(w, start) && Enabled(w, start, CommitWork)
    ensures Inv(Do(w, start, CommitWork), start)
  {
    hide Effect, Mountable, Home, Durable, By, Due, G.Inv;
    DurableNow(w, start);
    Committing(w);
    G.StepKeepsInv(w.g, G.CommitWork);
    assert w.g.active == map[];
    assert Known(w.g) == w.g.durable + w.g.ended;
    IdleOk(Do(w, start, CommitWork), start);
  }

  lemma PutLog(g: G.State, op: nat, b: int)
    requires G.Inv(g) && Phased(g) && G.Enabled(g, G.Put(op, b))
    ensures var g' := G.Do(g, G.Put(op, b));
      && G.Inv(g') && Phased(g') && Known(g') == Known(g) && g'.durable == g.durable && op in Known(g) && op !in g.durable
      && !g.log.committing && !g'.log.committing && Distinct(g'.log.lh) && |g'.log.lh| <= LOGBLOCKS
      && b in g'.log.lh && forall c :: c in g'.log.lh <==> c in g.log.lh || c == b
  {
    G.StepKeepsInv(g, G.Put(op, b));
    var g' := G.Do(g, G.Put(op, b));
    assert g'.active.Keys == g.active.Keys;
    G.ReservedBounds(g'.active);
  }

  /** A running operation writes, so nothing is being committed. */
  lemma PutKeeps(w: World, start: nat, op: nat, b: int, x: Block)
    requires Inv(w, start) && Enabled(w, start, Put(op, b, x))
    ensures Inv(Do(w, start, Put(op, b, x)), start)
  {
    hide Effect, By, G.Inv, CommitWrites, Apply, G.Do, G.Enabled, Phased, Known, Mountable;
    PutLog(w.g, op, b);
    var w' := Do(w, start, Put(op, b, x));
    EffectSnoc(w.first, w.writes, Entry(op, b, x), w.g.durable);
    EffectSnoc(w.first, w.writes, Entry(op, b, x), Known(w.g));
    BySnoc(w.writes, Entry(op, b, x), Known(w.g));
    forall i | 0 <= i < |w'.g.log.lh| ensures w'.g.log.lh[i] in w'.mem { assert w'.g.log.lh[i] in w'.g.log.lh; }
    NothingWritten(w.base, Due(w, start));
    NothingWritten(w.base, Due(w', start));
  }

  lemma NothingWritten(d: Disk, ws: seq<Write>)
    ensures Apply(d, Cut(ws, 0)) == d
  {
  }

  predicate Quiet(step: Step) { step.Begin? || step.End? || step.Finish? || step.SyncCall? || step.SyncReturn? }

  /** What Begin, End, Finish and the syncs do to the log structure. */
  lemma QuietLog(g: G.State, step: G.Step)
    requires Phased(g) && G.Enabled(g, step) && !step.Put? && !step.CommitWork?
    ensures var g' := G.Do(g, step);
      && Phased(g') && g'.durable == g.durable && g'.log.lh == g.log.lh && Known(g) <= Known(g')
      && (g.log.committing && !g'.log.committing ==> g.log.lh == [])
  {
    hide G.Admits, G.LogWrite, G.WithinBudget;
    match step
    case Begin(op) => assert (g.active[op := {}]).Keys == g.active.Keys + {op};
    case End(op) => assert (g.active - {op}).Keys == g.active.Keys - {op};
    case _ =>
  }

  lemma SyncPromise(g: G.State, id: nat)
    requires G.Inv(g) && G.Enabled(g, G.SyncReturn(id))
    ensures g.syncs[id].promised <= g.durable
  {
  }

  lemma ByMore(writes: seq<Entry>, ops: set<nat>, more: set<nat>)
    requires By(writes, ops)
    ensures ops <= more ==> By(writes, more)
  {
  }

  lemma EffectMore(first: map<int, Block>, writes: seq<Entry>, ops: set<nat>, more: set<nat>)
    requires By(writes, ops) && ops <= more
    ensures Effect(first, writes, ops) == Effect(first, writes, more)
  {
    EffectSame(first, writes, ops, more);
  }

  /** They leave the disk and the file system's view alone. */
  lemma QuietKeeps(w: World, start: nat, step: Step)
    requires Inv(w, start) && Enabled(w, start, step) && Quiet(step)
    ensures Inv(Do(w, start, step), start)
  {
    hide Effect, Mountable, Home, By, G.Inv, CommitWrites, Apply, Loggable, Cut, Data, G.Do, G.Enabled, Phased, Known;
    G.StepKeepsInv(w.g, Protocol(step));
    QuietLog(w.g, Protocol(step));
    var w' := Do(w, start, step);
    ByMore(w.writes, Known(w.g), Known(w'.g));
    EffectMore(w.first, w.writes, Known(w.g), Known(w'.g));
    if step.SyncReturn? { SyncPromise(w.g, step.id); }
    DueSize(w, start);
    assert Due(w', start) == Due(w, start);
  }

  lemma StepKeeps(w: World, start: nat, step: Step)
    requires Inv(w, start) && Enabled(w, start, step)
    ensures Inv(Do(w, start, step), start)
  {
    hide Inv, Enabled;
    match step
    case DiskWrite => DiskWriteKeeps(w, start);
    case Crash(cuts) => CrashKeeps(w, start, cuts);
    case CommitWork => CommitWorkKeeps(w, start);
    case Put(op, b, x) => PutKeeps(w, start, op, b, x);
    case _ => QuietKeeps(w, start, step);
  }

  lemma FreshInv(w: World, start: nat)
    requires Fresh(w, start)
    ensures Inv(w, start)
  {
    assert G.Reserved(map[]) == 0;
  }

  lemma {:induction false} ReachedInv(ws: seq<World>, steps: seq<Step>, start: nat, n: nat)
    requires IsRun(ws, steps, start) && n <= |steps|
    ensures Inv(ws[n], start)
  {
    hide Inv, Fresh, Enabled;
    if n == 0 {
      FreshInv(ws[0], start);
    } else {
      ReachedInv(ws, steps, start, n - 1);
      assert Next(ws[n - 1], start, steps[n - 1], ws[n]);
      StepKeeps(ws[n - 1], start, steps[n - 1]);
    }
  }

  // ----- the theorem -----------------------------------------------------------------------------------------

  /** Wherever a run stands, and however often it has crashed before: crash now, let any number of
      recoveries be cut short, and let one complete.  Then the home blocks hold exactly what a set
      of whole operations wrote, in order; the operations all had ended; and every operation that
      had ended before a sync that has returned is among them. */
  lemma SyncSurvivesCrash(ws: seq<World>, steps: seq<Step>, start: nat, n: nat, cuts: seq<nat>)
    requires IsRun(ws, steps, start) && n <= |steps|
    ensures var w := ws[n];
      && Mountable(w.d, start)
      && Home(After(w.d, start, cuts), start) == Effect(w.first, w.writes, OnDisk(w))
      && w.synced <= OnDisk(w) <= w.g.durable + w.g.ended && OnDisk(w) !! w.g.active.Keys
  {
    ReachedInv(ws, steps, start, n);
    DurableNow(ws[n], start);
    RecoveredHome(ws[n].d, start, cuts);
  }

  lemma {:induction false} OnlyOnly(writes: seq<Entry>, ops: set<nat>, op: nat)
    requires op in ops
    ensures Only(Only(writes, ops), {op}) == Only(writes, {op})
  {
    if writes != [] {
      hide Only;
      var rest, e := writes[..|writes| - 1], writes[|writes| - 1];
      assert writes == rest + [e];
      OnlyOnly(rest, ops, op);
      OnlySnoc(rest, e, ops);
      OnlySnoc(rest, e, {op});
      OnlySnoc(Only(rest, ops), e, {op});
    } else {
      assert Only([], ops) == [];
    }
  }

  lemma StaysStep(w: World, start: nat, step: Step, op: nat)
    requires Inv(w, start) && Enabled(w, start, step) && op in w.g.durable
    ensures op in Do(w, start, step).g.durable && Only(Do(w, start, step).writes, {op}) == Only(w.writes, {op})
  {
    hide Only, DiskOk, MemOk, G.Inv, After, CanCommit, Mountable, G.WithinBudget, G.LogWrite, G.Admits;
    match step
    case Put(o, b, x) => OnlySnoc(w.writes, Entry(o, b, x), {op});
    case Crash(_) => OnlyOnly(w.writes, OnDisk(w), op);
    case _ =>
  }

  /** An operation that is durable stays so through all crashes, and none of its writes is lost or
      added. */
  lemma {:induction false} DurableStays(ws: seq<World>, steps: seq<Step>, start: nat, m: nat, n: nat, op: nat)
    requires IsRun(ws, steps, start) && m <= n <= |steps| && op in ws[m].g.durable
    ensures op in ws[n].g.durable && Only(ws[n].writes, {op}) == Only(ws[m].writes, {op})
    decreases n
  {
    hide Inv, Fresh, Enabled, Only, Do;
    if m < n {
      DurableStays(ws, steps, start, m, n - 1, op);
      ReachedInv(ws, steps, start, n - 1);
      assert Next(ws[n - 1], start, steps[n - 1], ws[n]);
      StaysStep(ws[n - 1], start, steps[n - 1], op);
    }
  }

  /** The promise of sync: once the call returns, every operation that had ended before it was made
      is found by any later recovery, with exactly the writes it made. */
  lemma PromiseKept(ws: seq<World>, steps: seq<Step>, start: nat, m: nat, id: nat, n: nat, op: nat)
    requires IsRun(ws, steps, start) && m < n <= |steps| && steps[m] == SyncReturn(id)
    ensures id in ws[m].g.syncs
    ensures op in ws[m].g.syncs[id].promised ==>
      op in OnDisk(ws[n]) && Only(ws[n].writes, {op}) == Only(ws[m].writes, {op})
  {
    hide Only;
    assert Next(ws[m], start, steps[m], ws[m + 1]);
    ReachedInv(ws, steps, start, m);
    SyncPromise(ws[m].g, id);
    if op in ws[m].g.syncs[id].promised { DurableStays(ws, steps, start, m, n, op); }
  }

  /** Without a crash the file system sees the writes of all operations, running ones included. */
  lemma SeesAllWrites(ws: seq<World>, steps: seq<Step>, start: nat, n: nat)
    requires IsRun(ws, steps, start) && n <= |steps|
    ensures ws[n].mem == Effect(ws[n].first, ws[n].writes, Known(ws[n].g))
  {
    ReachedInv(ws, steps, start, n);
  }

  // ----- one operation on its own -----------------------------------------------------------------------------

  /** Nothing runs at step m, and until step n only `op` begins and nothing crashes. */
  ghost predicate Alone(ws: seq<World>, steps: seq<Step>, m: nat, n: nat, op: nat) {
    && m <= n <= |steps| && |ws| == |steps| + 1
    && ws[m].g.active == map[] && !ws[m].g.log.committing && op !in ws[m].g.durable
    && forall k :: m <= k < n ==> !steps[k].Crash? && (steps[k].Begin? ==> steps[k].op == op)
  }

  /** What w has in addition to w0 is the doing of `op`. */
  ghost predicate Adds(w0: World, w: World, op: nat) {
    && w.first == w0.first && w0.g.durable <= w.g.durable && Known(w.g) <= w0.g.durable + {op}
    && |w0.writes| <= |w.writes| && w.writes[..|w0.writes|] == w0.writes && By(w.writes[|w0.writes|..], {op})
  }

  lemma AddsStep(w0: World, w: World, start: nat, step: Step, op: nat)
    requires Adds(w0, w, op) && op !in w0.g.durable && Phased(w.g) && Enabled(w, start, step)
    requires !step.Crash? && (step.Begin? ==> step.op == op)
    ensures Adds(w0, Do(w, start, step), op)
  {
    hide Due, CanCommit, Mountable, G.Admits, G.WithinBudget;
    match step
    case DiskWrite =>
    case Put(o, b, x) =>
      var w' := Do(w, start, step);
      assert o in Known(w.g) && o == op;
      assert (w.g.active[o := w.g.active[o] + {b}]).Keys == w.g.active.Keys;
      assert w'.writes[|w0.writes|..] == w.writes[|w0.writes|..] + [Entry(o, b, x)];
    case Begin(o) => assert (w.g.active[o := {}]).Keys == w.g.active.Keys + {o};
    case End(o) => assert (w.g.active - {o}).Keys == w.g.active.Keys - {o};
    case _ =>
  }

  lemma {:induction false} AddsAlong(ws: seq<World>, steps: seq<Step>, start: nat, m: nat, n: nat, op: nat)
    requires IsRun(ws, steps, start) && Alone(ws, steps, m, n, op)
    ensures Adds(ws[m], ws[n], op)
    decreases n
  {
    hide Inv, Fresh, Enabled, Adds;
    if n == m {
      ReachedInv(ws, steps, start, m);
      AddsNothing(ws[m], start, op);
    } else {
      AddsAlong(ws, steps, start, m, n - 1, op);
      ReachedInv(ws, steps, start, n - 1);
      InPhase(ws[n - 1], start);
      assert Next(ws[n - 1], start, steps[n - 1], ws[n]);
      AddsStep(ws[m], ws[n - 1], start, steps[n - 1], op);
    }
  }

  lemma InPhase(w: World, start: nat)
    requires Inv(w, start)
    ensures Phased(w.g)
  {
  }

  lemma AddsNothing(w: World, start: nat, op: nat)
    requires Inv(w, start) && w.g.active == map[] && !w.g.log.committing
    ensures Adds(w, w, op)
  {
  }

  lemma {:induction false} EffectTail(first: map<int, Block>, writes: seq<Entry>, tail: seq<Entry>, op: nat, ops: set<nat>)
    requires By(tail, {op}) && op !in ops
    ensures Effect(first, writes + tail, ops) == Effect(first, writes, ops)
  {
    if tail == [] {
      assert writes + tail == writes;
    } else {
      var rest, e := tail[..|tail| - 1], tail[|tail| - 1];
      EffectTail(first, writes, rest, op, ops);
      EffectSnoc(first, writes + rest, e, ops);
      assert writes + tail == writes + rest + [e];
    }
  }

  /** An operation that runs alone is atomic: after a crash at any point the home blocks are as
      before it began, or as it left them, according to whether it is among the operations on disk. */
  lemma OneOpIsAtomic(ws: seq<World>, steps: seq<Step>, start: nat, m: nat, n: nat, op: nat, cuts: seq<nat>)
    requires IsRun(ws, steps, start) && Alone(ws, steps, m, n, op)
    ensures Mountable(ws[n].d, start)
    ensures Home(After(ws[n].d, start, cuts), start) == if op in OnDisk(ws[n]) then ws[n].mem else ws[m].mem
  {
    hide Effect, Inv, After, Home, Mountable, Fresh, Next, OnDisk, By;
    SyncSurvivesCrash(ws, steps, start, n, cuts);
    SeesAllWrites(ws, steps, start, m);
    SeesAllWrites(ws, steps, start, n);
    ReachedInv(ws, steps, start, m);
    AddsAlong(ws, steps, start, m, n, op);
    OnDiskHas(ws[n]);
    AtomicFrom(ws[m], ws[n], start, op);
  }

  lemma OnDiskHas(w: World)
    ensures w.g.durable <= OnDisk(w) <= Known(w.g)
  {
  }

  lemma AtomicFrom(w0: World, w: World, start: nat, op: nat)
    requires Inv(w0, start) && w0.g.active == map[] && !w0.g.log.committing && op !in w0.g.durable && Adds(w0, w, op)
    requires w.g.durable <= OnDisk(w) <= Known(w.g)
    ensures Effect(w.first, w.writes, OnDisk(w)) ==
      if op in OnDisk(w) then Effect(w.first, w.writes, Known(w.g)) else Effect(w0.first, w0.writes, Known(w0.g))
  {
    hide Effect, By, OnDisk, Inv;
    if op in OnDisk(w) {
      assert OnDisk(w) == Known(w.g);
    } else {
      var tail := w.writes[|w0.writes|..];
      assert w.writes == w0.writes + tail;
      EffectTail(w.first, w0.writes, tail, op, OnDisk(w));
      NothingEnded(w0, start);
      assert Known(w0.g) == w0.g.durable;
      assert OnDisk(w) == w0.g.durable;
    }
  }

  lemma NothingEnded(w: World, start: nat)
    requires Inv(w, start) && w.g.active == map[] && !w.g.log.committing
    ensures w.g.ended == {}
  {
  }

  /** A block nobody logs keeps its contents. */
  lemma {:induction false} MemKept(ws: seq<World>, steps: seq<Step>, start: nat, m: nat, n: nat, b: int)
    requires IsRun(ws, steps, start) && m <= n <= |steps|
    requires forall k :: m <= k < n ==> !steps[k].Crash? && (steps[k].Put? ==> steps[k].b != b)
    ensures (b in ws[n].mem <==> b in ws[m].mem) && (b in ws[m].mem ==> ws[n].mem[b] == ws[m].mem[b])
    decreases n
  {
    hide Enabled, Fresh, Due, G.Do;
    if m < n {
      MemKept(ws, steps, start, m, n - 1, b);
      assert Next(ws[n - 1], start, steps[n - 1], ws[n]);
    }
  }
}
