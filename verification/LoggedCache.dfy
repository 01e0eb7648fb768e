/** The buffer cache and the log together (kernel/bio.c, kernel/log.c).  Between
    log_write and install_trans the only current copy of a block is the one in the cache;
    its home location on disk is stale.  Each step below is one section under a lock,
    taken by any process in any order. */
module LoggedCache {
  import opened Basics
  import opened BufferCache

  const ROOTDEV: nat := 1

  /** refs counts the references processes hold through bget; locked and touched are the
      buffers whose sleep lock is held and whose contents have been changed but not yet
      logged; lh are the blocks in the log and pending those of them not yet installed;
      logical is the disk as the file system means it: the contents last logged or
      written through.  spoiled has the blocks whose buffer was released with a change that was
      not logged, as writei does when a copy from user memory fails, and what their readers get
      for it: the contents of the last such release, or, once that buffer has been recycled,
      what an installation had taken of an earlier one to the disk. */
  datatype Sys = Sys(
    c: Cache,
    disk: map<int, Data>,
    refs: multiset<nat>,
    locked: set<nat>,
    touched: set<nat>,
    lh: set<int>,
    pending: set<int>,
    logical: map<int, Data>,
    spoiled: map<int, Data>)

  datatype Step =
    | Get(b: int, i: nat)                 // bget, under bcache.lock
    | Lock(i: nat)                        // acquiresleep
    | Fill(i: nat)                        // bread: read the block if not valid
    | Modify(i: nat, d: Data)
    | LogIt(i: nat)                       // log_write
    | WriteThrough(i: nat, d: Data)       // a log block: change and bwrite
    | Release(i: nat)                     // brelse
    | Install(i: nat)                     // install_trans: bwrite, bunpin, brelse
    | Clear                               // log.lh.n = 0

  predicate Owns(s: Sys, i: nat) { i in s.locked && i < |s.c.bufs| && s.c.bufs[i].valid }

  ghost predicate Enabled(s: Sys, step: Step) {
    WellFormed(s.c) &&
    match step
    case Get(b, i) => b in s.disk && Picks(s.c, ROOTDEV, b, Some(i))
    case Lock(i) => i in s.refs && i !in s.locked
    case Fill(i) => i in s.locked && i < NBUF && !s.c.bufs[i].valid && s.c.bufs[i].blockno in s.disk
    case Modify(i, d) => Owns(s, i) && s.pending == s.lh
    case LogIt(i) => Owns(s, i) && s.pending == s.lh && |s.lh| < LOGBLOCKS
    case WriteThrough(i, d) => Owns(s, i) && s.c.bufs[i].blockno !in s.lh
    case Release(i) => Owns(s, i) && s.c.bufs[i].refcnt > 0
    case Install(i) =>
      i < NBUF && s.c.bufs[i].dev == ROOTDEV && s.c.bufs[i].blockno in s.pending && i !in s.locked
      && s.c.bufs[i].refcnt > 0
    case Clear => s.pending == {}
  }

  function WithData(c: Cache, i: nat, d: Data): Cache
    requires i < |c.bufs|
  {
    c.(bufs := c.bufs[i := c.bufs[i].(valid := true, data := d)])
  }

  /** A recycled buffer takes an unlogged change with it; what is on the disk remains. */
  function Recycled(s: Sys, b: int, i: nat): map<int, Data> {
    if i < |s.c.bufs| && !Holds(s.c.bufs[i], ROOTDEV, b) && s.c.bufs[i].dev == ROOTDEV then
      var o := s.c.bufs[i].blockno;
      if o in s.disk && o in s.logical && s.disk[o] != s.logical[o] then s.spoiled[o := s.disk[o]] else s.spoiled - {o}
    else s.spoiled
  }

  /** What a reader of block b gets. */
  function Seen(s: Sys, b: int): Data
    requires b in s.logical
  {
    if b in s.spoiled then s.spoiled[b] else s.logical[b]
  }

  ghost function Do(s: Sys, step: Step): Sys
    requires Enabled(s, step)
  {
    match step
    case Get(b, i) => s.(c := Taken(s.c, i, ROOTDEV, b), refs := s.refs + multiset{i}, spoiled := Recycled(s, b, i))
    case Lock(i) => s.(locked := s.locked + {i})
    case Fill(i) => s.(c := WithData(s.c, i, s.disk[s.c.bufs[i].blockno]))
    case Modify(i, d) => s.(c := WithData(s.c, i, d), touched := s.touched + {i})
    case LogIt(i) =>
      var b := s.c.bufs[i].blockno;
      var t := s.(touched := s.touched - {i}, logical := s.logical[b := s.c.bufs[i].data], spoiled := s.spoiled - {b});
      if b in s.lh then t
      else t.(lh := s.lh + {b}, pending := s.pending + {b}, c := Counted(s.c, i, s.c.bufs[i].refcnt + 1))
    case WriteThrough(i, d) =>
      var b := s.c.bufs[i].blockno;
      s.(c := WithData(s.c, i, d), touched := s.touched - {i}, disk := s.disk[b := d], logical := s.logical[b := d],
         spoiled := s.spoiled - {b})
    case Release(i) =>
      s.(c := Released(s.c, i), refs := s.refs - multiset{i}, locked := s.locked - {i}, touched := s.touched - {i},
         spoiled := if i in s.touched then s.spoiled[s.c.bufs[i].blockno := s.c.bufs[i].data] else s.spoiled)
    case Install(i) =>
      var b := s.c.bufs[i].blockno;
      s.(c := Released(s.c, i), disk := s.disk[b := s.c.bufs[i].data], pending := s.pending - {b})
    case Clear => s.(lh := {})
  }

  /** A freshly booted machine. */
  ghost predicate Booted(s: Sys) {
    && WellFormed(s.c)
    && (forall i :: 0 <= i < NBUF ==> s.c.bufs[i].dev == 0 && s.c.bufs[i].refcnt == 0)
    && s.refs == multiset{} && s.locked == {} && s.touched == {}
    && s.lh == {} && s.pending == {} && s.logical == s.disk && s.spoiled == map[]
  }

  ghost predicate Next(s: Sys, step: Step, t: Sys) { Enabled(s, step) && Do(s, step) == t }

  /** A run from boot: the states it goes through. */
  ghost predicate Run(ss: seq<Sys>, steps: seq<Step>) {
    && |ss| == |steps| + 1
    && Booted(ss[0])
    && forall k :: 0 <= k < |steps| ==> Next(ss[k], steps[k], ss[k + 1])
  }

  // ----- the invariant -------------------------------------------------------------------

  /** slot tells which buffer holds a block: exactly one does. */
  ghost predicate Placed(c: Cache, slot: map<int, nat>) {
    && |c.bufs| == NBUF
    && (forall i :: 0 <= i < NBUF ==> c.bufs[i].dev == 0 || c.bufs[i].dev == ROOTDEV)
    && (forall i :: 0 <= i < NBUF && c.bufs[i].dev == ROOTDEV ==>
          c.bufs[i].blockno in slot && slot[c.bufs[i].blockno] == i)
    && forall b :: b in slot ==> slot[b] < NBUF && Holds(c.bufs[slot[b]], ROOTDEV, b)
  }

  predicate Pinned(s: Sys, b: Buf) { b.dev == ROOTDEV && b.blockno in s.pending }

  /** Everything about buffer i.  Its reference count is exact: processes' references plus
      one for a pinned block.  A lock needs a reference, a change needs the lock.  If valid
      and not being changed, it holds what readers of its block are to get. */
  ghost predicate BufOk(s: Sys, i: nat)
    requires |s.c.bufs| == NBUF && i < NBUF
  {
    var b := s.c.bufs[i];
    && b.refcnt == s.refs[i] + (if Pinned(s, b) then 1 else 0)
    && (i in s.refs ==> b.dev == ROOTDEV && b.blockno in s.disk)
    && (i in s.locked ==> i in s.refs)
    && (i in s.touched ==> i in s.locked && b.valid)
    && (Pinned(s, b) ==> b.valid)
    && (b.dev == ROOTDEV && b.valid ==> b.blockno in s.logical)
    && (b.dev == ROOTDEV && b.valid && i !in s.touched ==> b.data == Seen(s, b.blockno))
    && (b.dev == ROOTDEV && !b.valid && b.blockno in s.disk ==> b.blockno in s.logical && s.disk[b.blockno] == Seen(s, b.blockno))
  }

  /** Only pending and spoiled blocks are stale on disk, every pending block is in the cache, and the
      disk has what readers of an uncached block get. */
  ghost predicate DiskOk(s: Sys, slot: map<int, nat>) {
    && s.disk.Keys == s.logical.Keys
    && s.pending <= s.lh
    && (forall b :: b in s.disk && b !in s.pending && b !in s.spoiled ==> s.disk[b] == s.logical[b])
    && (forall b :: b in s.pending ==> b in slot)
    && (forall b :: b in s.disk && b !in slot ==> s.disk[b] == Seen(s, b))
    && (forall i :: i in s.refs || i in s.locked || i in s.touched ==> i < NBUF)
  }

  ghost predicate Inv(s: Sys, slot: map<int, nat>) {
    && Placed(s.c, slot)
    && DiskOk(s, slot)
    && forall i :: 0 <= i < NBUF ==> BufOk(s, i)
  }

  // ----- every step keeps it ---------------------------------------------------------------

  lemma OrderKept(s: Sys, step: Step)
    requires Enabled(s, step)
    ensures WellFormed(Do(s, step).c)
  {
    match step {
      case Release(i) => MoveToFrontKeeps(s.c, i);
      case Install(i) => MoveToFrontKeeps(s.c, i);
      case _ =>
    }
  }

  /** A buffer that bget may recycle is neither referenced nor pinned, and the block asked
      for is not pending, since pending blocks are cached. */
  lemma RecycledIsFree(s: Sys, slot: map<int, nat>, b: int, i: nat)
    requires Inv(s, slot) && Enabled(s, Get(b, i)) && !Holds(s.c.bufs[i], ROOTDEV, b)
    ensures s.refs[i] == 0 && !Pinned(s, s.c.bufs[i]) && b !in s.pending && b !in slot
  {
    assert BufOk(s, i);
    if b in slot {
      assert false;
    }
  }

  lemma HitKeepsInv(s: Sys, slot: map<int, nat>, b: int, i: nat)
    requires Inv(s, slot) && Enabled(s, Get(b, i)) && Holds(s.c.bufs[i], ROOTDEV, b)
    ensures Inv(Do(s, Get(b, i)), slot)
  {
    var t := Do(s, Get(b, i));
    assert BufOk(s, i);
    hide WellFormed, Picks;
    forall j: nat | j < NBUF ensures BufOk(t, j) { assert BufOk(s, j); }
  }

  /** A recycled buffer's block leaves the cache and b comes in. */
  lemma RecycleKeepsInv(s: Sys, slot: map<int, nat>, b: int, i: nat, slot': map<int, nat>)
    requires Inv(s, slot) && Enabled(s, Get(b, i)) && !Holds(s.c.bufs[i], ROOTDEV, b)
    requires slot' == (if s.c.bufs[i].dev == ROOTDEV then slot - {s.c.bufs[i].blockno} else slot)[b := i]
    ensures Inv(Do(s, Get(b, i)), slot')
  {
    var t := Do(s, Get(b, i));
    RecycledIsFree(s, slot, b, i);
    RecycledSeen(s, slot, b, i);
    assert BufOk(s, i);
    hide WellFormed, Picks, Seen, Recycled;
    forall j: nat | j < NBUF ensures BufOk(t, j) {
      assert BufOk(s, j);
      if j != i && s.c.bufs[j].dev == ROOTDEV { assert slot[s.c.bufs[j].blockno] == j; }
    }
  }

  /** Readers of other blocks get what they got; of the block recycled, what the disk has. */
  lemma RecycledSeen(s: Sys, slot: map<int, nat>, b: int, i: nat)
    requires Inv(s, slot) && Enabled(s, Get(b, i)) && !Holds(s.c.bufs[i], ROOTDEV, b)
    ensures var t, o := Do(s, Get(b, i)), s.c.bufs[i];
      && (forall c :: c in s.logical && (o.dev == ROOTDEV ==> c != o.blockno) ==>
            Seen(t, c) == Seen(s, c) && (c in t.spoiled <==> c in s.spoiled))
      && (o.dev == ROOTDEV && o.blockno in s.disk ==>
            Seen(t, o.blockno) == s.disk[o.blockno] && (o.blockno !in t.spoiled ==> s.disk[o.blockno] == s.logical[o.blockno]))
  {
    hide BufOk, Placed;
  }

  lemma GetKeepsInv(s: Sys, slot: map<int, nat>, b: int, i: nat) returns (slot': map<int, nat>)
    requires Inv(s, slot) && Enabled(s, Get(b, i))
    ensures Inv(Do(s, Get(b, i)), slot')
  {
    var o := s.c.bufs[i];
    hide Inv, Do;
    if Holds(o, ROOTDEV, b) {
      slot' := slot;
      HitKeepsInv(s, slot, b, i);
    } else {
      slot' := (if o.dev == ROOTDEV then slot - {o.blockno} else slot)[b := i];
      RecycleKeepsInv(s, slot, b, i, slot');
    }
  }

  /** Steps that change the contents of a buffer in place. */
  lemma ContentsKeepInv(s: Sys, slot: map<int, nat>, step: Step)
    requires Inv(s, slot) && Enabled(s, step) && (step.Fill? || step.Modify? || step.WriteThrough?)
    ensures Inv(Do(s, step), slot)
  {
    var t, i := Do(s, step), step.i;
    assert BufOk(s, i);
    forall j: nat | j < NBUF ensures BufOk(t, j) { assert BufOk(s, j); }
  }

  lemma LogKeepsInv(s: Sys, slot: map<int, nat>, i: nat)
    requires Inv(s, slot) && Enabled(s, LogIt(i))
    ensures Inv(Do(s, LogIt(i)), slot)
  {
    var t := Do(s, LogIt(i));
    assert BufOk(s, i);
    forall j: nat | j < NBUF ensures BufOk(t, j) { assert BufOk(s, j); }
  }

  lemma ReleaseKeepsInv(s: Sys, slot: map<int, nat>, i: nat)
    requires Inv(s, slot) && Enabled(s, Release(i))
    ensures Inv(Do(s, Release(i)), slot)
  {
    var t := Do(s, Release(i));
    assert BufOk(s, i);
    forall c | c in s.logical && c != s.c.bufs[i].blockno ensures Seen(t, c) == Seen(s, c) { }
    hide WellFormed, Seen;
    forall j: nat | j < NBUF ensures BufOk(t, j) {
      assert BufOk(s, j);
      if j != i && s.c.bufs[j].dev == ROOTDEV { assert slot[s.c.bufs[j].blockno] == j; }
    }
  }

  lemma InstallKeepsInv(s: Sys, slot: map<int, nat>, i: nat)
    requires Inv(s, slot) && Enabled(s, Install(i))
    ensures Inv(Do(s, Install(i)), slot)
  {
    var t := Do(s, Install(i));
    assert BufOk(s, i);
    forall j: nat | j < NBUF ensures BufOk(t, j) { assert BufOk(s, j); }
  }

  lemma StepKeepsInv(s: Sys, slot: map<int, nat>, step: Step) returns (slot': map<int, nat>)
    requires Inv(s, slot) && Enabled(s, step)
    ensures Inv(Do(s, step), slot')
  {
    slot' := slot;
    match step {
      case Get(b, i) => slot' := GetKeepsInv(s, slot, b, i);
      case Lock(i) => forall j: nat | j < NBUF ensures BufOk(Do(s, step), j) { assert BufOk(s, j); }
      case Clear => forall j: nat | j < NBUF ensures BufOk(Do(s, step), j) { assert BufOk(s, j); }
      case LogIt(i) => LogKeepsInv(s, slot, i);
      case Release(i) => ReleaseKeepsInv(s, slot, i);
      case Install(i) => InstallKeepsInv(s, slot, i);
      case _ => ContentsKeepInv(s, slot, step);
    }
  }

  lemma {:induction false} RunInv(ss: seq<Sys>, steps: seq<Step>, k: nat) returns (slot: map<int, nat>)
    requires Run(ss, steps) && k < |ss|
    ensures WellFormed(ss[k].c) && Inv(ss[k], slot)
  {
    if k == 0 {
      slot := map[];
    } else {
      slot := RunInv(ss, steps, k - 1);
      assert Next(ss[k - 1], steps[k - 1], ss[k]);
      slot := StepKeepsInv(ss[k - 1], slot, steps[k - 1]);
      OrderKept(ss[k - 1], steps[k - 1]);
    }
  }

  // ----- what it gives -------------------------------------------------------------------------

  /** bread returns the contents last logged, whether or not they have reached the block's home
      location, if and only if the block has no unlogged release behind it, or one that happened
      to leave the same contents. */
  lemma ReadsLastLogged(ss: seq<Sys>, steps: seq<Step>, k: nat, i: nat)
    requires Run(ss, steps) && k < |ss| && Owns(ss[k], i) && i !in ss[k].touched
    ensures var s, b := ss[k], ss[k].c.bufs[i].blockno;
      && b in s.logical && s.c.bufs[i].data == Seen(s, b)
      && (s.c.bufs[i].data == s.logical[b] <==> b !in s.spoiled || s.spoiled[b] == s.logical[b])
  {
    var slot := RunInv(ss, steps, k);
    assert BufOk(ss[k], i);
  }

  /** Step k is a brelse of a buffer that was changed and not logged. */
  ghost predicate DirtyRelease(ss: seq<Sys>, steps: seq<Step>, k: nat)
    requires k < |steps| && |ss| == |steps| + 1
  {
    steps[k].Release? && steps[k].i in ss[k].touched
  }

  /** Runs without such a release have no spoiled block, so in them every read is current. */
  lemma {:induction false} CleanReleasesSpoilNothing(ss: seq<Sys>, steps: seq<Step>, k: nat)
    requires Run(ss, steps) && k < |ss| && forall j: nat :: j < k ==> !DirtyRelease(ss, steps, j)
    ensures ss[k].spoiled == map[]
  {
    hide Inv, Enabled, Do;
    if k > 0 {
      CleanReleasesSpoilNothing(ss, steps, k - 1);
      var slot := RunInv(ss, steps, k - 1);
      assert Next(ss[k - 1], steps[k - 1], ss[k]);
      assert !DirtyRelease(ss, steps, k - 1);
      CleanStep(ss[k - 1], slot, steps[k - 1]);
    }
  }

  lemma CleanStep(s: Sys, slot: map<int, nat>, step: Step)
    requires Inv(s, slot) && Enabled(s, step) && s.spoiled == map[] && !(step.Release? && step.i in s.touched)
    ensures Do(s, step).spoiled == map[]
  {
    if step.Get? && !Holds(s.c.bufs[step.i], ROOTDEV, step.b) { RecycledIsFree(s, slot, step.b, step.i); }
    hide BufOk, Placed;
  }

  /** No block is held by two buffers, and the buffer list stays a permutation. */
  lemma CacheStaysUnique(ss: seq<Sys>, steps: seq<Step>, k: nat)
    requires Run(ss, steps) && k < |ss|
    ensures WellFormed(ss[k].c) && Unique(ss[k].c)
  {
    var slot := RunInv(ss, steps, k);
  }

  /** Whatever block bget is asked for, a logged block that is not yet installed stays in
      its buffer with its contents. */
  lemma PinnedNeverRecycled(ss: seq<Sys>, steps: seq<Step>, k: nat, j: nat)
    requires Run(ss, steps) && k < |steps| && steps[k].Get?
    requires j < |ss[k].c.bufs| == NBUF && Pinned(ss[k], ss[k].c.bufs[j])
    ensures |ss[k + 1].c.bufs| == NBUF
    ensures var b, t := ss[k].c.bufs[j], ss[k + 1].c.bufs[j];
      Holds(t, ROOTDEV, b.blockno) && t.data == b.data && t.valid == b.valid
  {
    var slot := RunInv(ss, steps, k);
    assert Next(ss[k], steps[k], ss[k + 1]);
    if !Holds(ss[k].c.bufs[steps[k].i], ROOTDEV, steps[k].b) {
      RecycledIsFree(ss[k], slot, steps[k].b, steps[k].i);
    }
  }

  /** A block whose home copy is stale is pending or spoiled, and every pending block is pinned in
      the cache, with its logical contents unless it is spoiled or is being changed by its lock
      holder. */
  lemma StaleBlocksAreCached(ss: seq<Sys>, steps: seq<Step>, k: nat, b: int) returns (i: nat)
    requires Run(ss, steps) && k < |ss| && b in ss[k].disk
    ensures b in ss[k].logical && (ss[k].disk[b] != ss[k].logical[b] ==> b in ss[k].pending || b in ss[k].spoiled)
    ensures b in ss[k].pending ==> CachedAt(ss[k].c, i, ROOTDEV, b) && ss[k].c.bufs[i].valid && ss[k].c.bufs[i].refcnt > 0
    ensures b in ss[k].pending ==>
      i in ss[k].touched || b in ss[k].spoiled || ss[k].c.bufs[i].data == ss[k].logical[b]
  {
    var slot := RunInv(ss, steps, k);
    i := 0;
    if b in ss[k].pending {
      i := slot[b];
      assert BufOk(ss[k], i);
    }
  }

  // ----- running out of buffers ---------------------------------------------------------------------

  /** The buffers that somebody references or the log pins. */
  ghost function Busy(s: Sys): set<nat>
    requires |s.c.bufs| == NBUF
  {
    set i: nat | i < NBUF && (i in s.refs || Pinned(s, s.c.bufs[i]))
  }

  /** In every run: bget panics exactly for a block that is not cached while every buffer is
      referenced by a process or pinned by the log. */
  lemma NoBufferIff(ss: seq<Sys>, steps: seq<Step>, k: nat, b: int)
    requires Run(ss, steps) && k < |ss|
    ensures WellFormed(ss[k].c)
    ensures Picks(ss[k].c, ROOTDEV, b, None) <==>
      (forall i :: 0 <= i < NBUF ==> !Holds(ss[k].c.bufs[i], ROOTDEV, b)) && |Busy(ss[k])| == NBUF
  {
    hide Below;
    var s := ss[k];
    var slot := RunInv(ss, steps, k);
    forall i: nat | i < NBUF ensures s.c.bufs[i].refcnt > 0 <==> i in Busy(s) { assert BufOk(s, i); }
    SubsetSize(Busy(s), Below(NBUF));
    if |Busy(s)| == NBUF { assert Busy(s) == Below(NBUF); }
    if forall i :: 0 <= i < NBUF ==> s.c.bufs[i].refcnt > 0 { assert Busy(s) == Below(NBUF); }
  }

  lemma {:induction false} ImageSize(m: map<int, nat>, p: set<int>)
    requires p <= m.Keys && forall a, b :: a in p && b in p && m[a] == m[b] ==> a == b
    ensures |set b | b in p :: m[b]| == |p|
    decreases |p|
  {
    if |p| > 0 {
      var x := Pick(p);
      ImageSize(m, p - {x});
      assert (set b | b in p :: m[b]) == (set b | b in p - {x} :: m[b]) + {m[x]};
      assert m[x] !in (set b | b in p - {x} :: m[b]);
    } else {
      assert (set b | b in p :: m[b]) == {};
    }
  }

  /** The pinned buffers are as many as the pending blocks. */
  lemma PinnedCount(s: Sys, slot: map<int, nat>)
    requires Inv(s, slot) && s.refs == multiset{}
    ensures |Busy(s)| == |s.pending|
  {
    forall a, b | a in s.pending && b in s.pending && slot[a] == slot[b] ensures a == b {
      assert Holds(s.c.bufs[slot[a]], ROOTDEV, a) && Holds(s.c.bufs[slot[b]], ROOTDEV, b);
    }
    assert s.pending <= slot.Keys by { forall b | b in s.pending ensures b in slot.Keys { } }
    ImageSize(slot, s.pending);
    forall i ensures i in Busy(s) <==> i in (set b | b in s.pending :: slot[b]) {
      if i in Busy(s) { assert slot[s.c.bufs[i].blockno] == i; }
    }
    assert Busy(s) == (set b | b in s.pending :: slot[b]);
  }

  /** While no process holds a buffer, bget finds one for a block that is not cached if and only
      if fewer than NBUF blocks are logged and not yet installed.  So commit() of n blocks gets
      its buffers exactly if n < NBUF. */
  lemma BufferLeftIff(ss: seq<Sys>, steps: seq<Step>, k: nat, b: int)
    requires Run(ss, steps) && k < |ss| && ss[k].refs == multiset{}
    requires |ss[k].c.bufs| == NBUF && forall i :: 0 <= i < NBUF ==> !Holds(ss[k].c.bufs[i], ROOTDEV, b)
    ensures WellFormed(ss[k].c) && ((exists i :: Picks(ss[k].c, ROOTDEV, b, Some(i))) <==> |ss[k].pending| < NBUF)
  {
    var s := ss[k];
    var slot := RunInv(ss, steps, k);
    PinnedCount(s, slot);
    NoBufferIff(ss, steps, k, b);
    hide Inv, Run, Busy, Pinned;
    SubsetBusy(s);
    if |s.pending| < NBUF {
      var x :| 0 <= x < NBUF && s.c.bufs[x].refcnt == 0;
      Onto(s.c.order, NBUF, x);
      var p :| 0 <= p < NBUF && s.c.order[p] == x;
      var i := SomeLeastRecentFree(s.c, p);
      assert Picks(s.c, ROOTDEV, b, Some(i));
    }
  }

  lemma SubsetBusy(s: Sys)
    requires |s.c.bufs| == NBUF
    ensures |Busy(s)| <= NBUF
  {
    SubsetSize(Busy(s), Below(NBUF));
  }

  // ----- a release without log_write ------------------------------------------------------------------

  /** What writei does when a copy from user memory fails after changing part of block b: the next
      reader of b sees contents that nobody logged. */
  lemma UnloggedChangeIsSeen(s0: Sys, b: int, i: nat, d: Data) returns (ss: seq<Sys>, steps: seq<Step>)
    requires Booted(s0) && b in s0.disk && Enabled(s0, Get(b, i)) && d != s0.disk[b]
    ensures Run(ss, steps) && var s := ss[|steps|];
      Owns(s, i) && i !in s.touched && b in s.spoiled && Holds(s.c.bufs[i], ROOTDEV, b) && b in s.logical
      && s.c.bufs[i].data == d && s.logical[b] == s0.disk[b]
  {
    ss, steps := [s0], [];
    ss, steps := Append(ss, steps, Get(b, i));
    ss, steps := Append(ss, steps, Lock(i));
    ss, steps := Append(ss, steps, Fill(i));
    ss, steps := Append(ss, steps, Modify(i, d));
    var s := ss[|steps|];
    assert s.c.bufs[i] == Buf(ROOTDEV, b, true, 1, d) && s.refs == multiset{i} && s.locked == {i} && s.touched == {i};
    OrderKept(s, Release(i));
    ss, steps := Append(ss, steps, Release(i));
    s := ss[|steps|];
    assert s.c.bufs[i] == Buf(ROOTDEV, b, true, 0, d) && s.refs == multiset{} && s.locked == {} && s.touched == {};
    assert s.spoiled == map[b := d];
    assert Holds(s.c.bufs[i], ROOTDEV, b);
    ss, steps := Append(ss, steps, Get(b, i));
    ss, steps := Append(ss, steps, Lock(i));
  }

  lemma Extend(ss: seq<Sys>, steps: seq<Step>, step: Step)
    requires Run(ss, steps) && Enabled(ss[|steps|], step)
    ensures Run(ss + [Do(ss[|steps|], step)], steps + [step])
  {
    var ss', steps' := ss + [Do(ss[|steps|], step)], steps + [step];
    forall k | 0 <= k < |steps'| ensures Next(ss'[k], steps'[k], ss'[k + 1]) {
      if k < |steps| {
        assert Next(ss[k], steps[k], ss[k + 1]);
      }
    }
  }

  /** Blocks 0..k-1 have been logged, each in a buffer of its own, and nothing is held. */
  ghost predicate Loaded(s: Sys, used: set<nat>, k: nat) {
    && WellFormed(s.c)
    && s.refs == multiset{} && s.locked == {} && s.touched == {} && s.lh == s.pending && s.spoiled == map[]
    && |used| == k == |s.lh|
    && (forall b :: b in s.lh ==> 0 <= b < k)
    && (forall i :: i in used ==> i < NBUF)
    && forall i :: 0 <= i < NBUF ==> var b := s.c.bufs[i];
         if i in used then b.refcnt > 0 && b.dev == ROOTDEV && b.blockno in s.lh else b.refcnt == 0 && b.dev == 0
  }

  lemma SomethingLeft(used: set<nat>, n: nat) returns (x: nat)
    requires |used| < n && forall i :: i in used ==> i < n
    ensures x < n && x !in used
  {
    if forall x :: x in Below(n) ==> x in used {
      assert Below(n) <= used;
      SubsetSize(Below(n), used);
      assert false;
    }
    x :| x in Below(n) && x !in used;
  }

  lemma {:induction false} SomeLeastRecentFree(c: Cache, k: nat) returns (i: nat)
    requires WellFormed(c) && k < NBUF && c.bufs[c.order[k]].refcnt == 0
    ensures i < NBUF && LeastRecentFree(c, i)
    decreases NBUF - k
  {
    if j :| k < j < NBUF && c.bufs[c.order[j]].refcnt == 0 {
      i := SomeLeastRecentFree(c, j);
    } else {
      i := c.order[k];
    }
  }

  lemma FreeBuffer(s: Sys, used: set<nat>, k: nat) returns (i: nat)
    requires Loaded(s, used, k) && k < NBUF && k in s.disk
    ensures i < NBUF && i !in used && Enabled(s, Get(k, i))
  {
    var x := SomethingLeft(used, NBUF);
    Onto(s.c.order, NBUF, x);
    var p :| 0 <= p < NBUF && s.c.order[p] == x;
    i := SomeLeastRecentFree(s.c, p);
  }

  /** bread, log_write and brelse of block k in buffer i. */
  lemma LoadOne(ss: seq<Sys>, steps: seq<Step>, used: set<nat>, k: nat, i: nat)
      returns (ss': seq<Sys>, steps': seq<Step>)
    requires Run(ss, steps) && Loaded(ss[|steps|], used, k) && k < NBUF && k in ss[|steps|].disk
    requires i < NBUF && i !in used && Enabled(ss[|steps|], Get(k, i))
    ensures Run(ss', steps') && Loaded(ss'[|steps'|], used + {i}, k + 1) && ss'[|steps'|].disk == ss[|steps|].disk
  {
    LoadedNext(ss[|steps|], used, k, i);
    LoadedMore(ss[|steps|], used, k, i);
    ss', steps' := Append(ss, steps, Get(k, i));
    ss', steps' := Append(ss', steps', Lock(i));
    ss', steps' := Append(ss', steps', Fill(i));
    ss', steps' := Append(ss', steps', LogIt(i));
    ss', steps' := Append(ss', steps', Release(i));
  }

  lemma Append(ss: seq<Sys>, steps: seq<Step>, step: Step) returns (ss': seq<Sys>, steps': seq<Step>)
    requires Run(ss, steps) && Enabled(ss[|steps|], step)
    ensures Run(ss', steps') && ss'[|steps'|] == Do(ss[|steps|], step)
  {
    Extend(ss, steps, step);
    ss', steps' := ss + [Do(ss[|steps|], step)], steps + [step];
  }

  /** The state with block k in buffer i, logged and released. */
  ghost function WithLogged(s: Sys, k: int, i: nat): Sys
    requires |s.c.bufs| == NBUF && i < NBUF && k in s.disk
  {
    var b := Buf(ROOTDEV, k, true, 1, s.disk[k]);
    s.(c := s.c.(bufs := s.c.bufs[i := b]), lh := s.lh + {k}, pending := s.pending + {k}, logical := s.logical[k := s.disk[k]])
  }

  lemma LoadedNext(s: Sys, used: set<nat>, k: nat, i: nat)
    requires Loaded(s, used, k) && k < NBUF && k in s.disk && i < NBUF && i !in used
    requires Enabled(s, Get(k, i))
    ensures var s1 := Do(s, Get(k, i));
      Enabled(s1, Lock(i)) && var s2 := Do(s1, Lock(i));
      Enabled(s2, Fill(i)) && var s3 := Do(s2, Fill(i));
      Enabled(s3, LogIt(i)) && var s4 := Do(s3, LogIt(i));
      Enabled(s4, Release(i)) && Do(s4, Release(i)) == WithLogged(s, k, i)
  {
    LoadedRead(s, used, k, i);
    LoadedLog(s, used, k, i);
  }

  /** The state with block k read into buffer i, referenced once and locked. */
  ghost function WithRead(s: Sys, k: int, i: nat): Sys
    requires |s.c.bufs| == NBUF && i < NBUF && k in s.disk
  {
    var b := Buf(ROOTDEV, k, true, 1, s.disk[k]);
    s.(c := s.c.(bufs := s.c.bufs[i := b]), refs := multiset{i}, locked := {i})
  }

  lemma LoadedRead(s: Sys, used: set<nat>, k: nat, i: nat)
    requires Loaded(s, used, k) && k < NBUF && k in s.disk && i < NBUF && i !in used
    requires Enabled(s, Get(k, i))
    ensures var s1 := Do(s, Get(k, i));
      Enabled(s1, Lock(i)) && var s2 := Do(s1, Lock(i));
      Enabled(s2, Fill(i)) && Do(s2, Fill(i)) == WithRead(s, k, i)
  {
  }

  lemma LoadedLog(s: Sys, used: set<nat>, k: nat, i: nat)
    requires Loaded(s, used, k) && k < NBUF && k in s.disk && i < NBUF && i !in used
    ensures var s3 := WithRead(s, k, i);
      Enabled(s3, LogIt(i)) && var s4 := Do(s3, LogIt(i));
      Enabled(s4, Release(i)) && Do(s4, Release(i)) == WithLogged(s, k, i)
  {
    var s3 := WithRead(s, k, i);
    var b := Buf(ROOTDEV, k, true, 1, s.disk[k]);
    var s4 := Do(s3, LogIt(i));
    assert s4.c.bufs == s.c.bufs[i := b.(refcnt := 2)];
    var t := Do(s4, Release(i));
    assert t.c.bufs == s.c.bufs[i := b];
    assert t.refs == s.refs && t.locked == s.locked && t.touched == s.touched && t.spoiled == s.spoiled;
  }

  lemma LoadedMore(s: Sys, used: set<nat>, k: nat, i: nat)
    requires Loaded(s, used, k) && k < NBUF && k in s.disk && i < NBUF && i !in used
    ensures Loaded(WithLogged(s, k, i), used + {i}, k + 1)
  {
  }

  /** NBUF equals LOGBLOCKS, so the condition can fail: a full log is reachable in which bget can
      find no buffer for any further block, not even for the log block that commit reads first. */
  lemma FullLogLeavesNoBuffer(s0: Sys) returns (ss: seq<Sys>, steps: seq<Step>)
    requires Booted(s0) && forall b :: 0 <= b < LOGBLOCKS ==> b in s0.disk
    ensures Run(ss, steps) && |ss[|steps|].lh| == LOGBLOCKS && ss[|steps|].refs == multiset{}
    ensures WellFormed(ss[|steps|].c) && forall b :: b >= LOGBLOCKS ==> Picks(ss[|steps|].c, ROOTDEV, b, None)
  {
    hide Below;
    ss, steps := [s0], [];
    var used: set<nat>, k := {}, 0;
    while k < LOGBLOCKS
      invariant 0 <= k <= LOGBLOCKS && Run(ss, steps) && Loaded(ss[|steps|], used, k)
      invariant ss[|steps|].disk == s0.disk
    {
      var i := FreeBuffer(ss[|steps|], used, k);
      ss, steps := LoadOne(ss, steps, used, k, i);
      used, k := used + {i}, k + 1;
    }
    SubsetSize(used, Below(NBUF));
  }
}
