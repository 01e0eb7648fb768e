/** The on-disk half of the redo log (kernel/log.c): which blocks a commit and a
    recovery write, in which order, and what a crash between any two of those
    writes leaves behind.

    A disk is a map from block number to block.  A block is 256 32-bit words; the
    log header is laid over the first words of block `start`, so it has to be
    encoded and decoded like the C struct. */
module LogDisk {
  import opened Basics

  const WORDS: nat := 256

  datatype Block = Block(w: seq<int>)
  type Disk = map<int, Block>
  datatype Write = Write(blockno: int, data: Block)

  /** Effect of a sequence of atomic block writes. */
  function Apply(d: Disk, ws: seq<Write>): Disk {
    if ws == [] then d
    else
      var w := ws[|ws| - 1];
      Apply(d, ws[..|ws| - 1])[w.blockno := w.data]
  }

  // ----- the log area ---------------------------------------------------------

  /** Header block at `start`, then LOGBLOCKS log blocks. */
  predicate InLog(start: nat, b: int) { start <= b <= start + LOGBLOCKS }

  /** A list of block numbers that may legally appear in a log header. */
  predicate Loggable(d: Disk, start: nat, lh: seq<int>) {
    && |lh| <= LOGBLOCKS
    && Distinct(lh)
    && forall i :: 0 <= i < |lh| ==> lh[i] in d && !InLog(start, lh[i])
  }

  predicate HeadFits(h: Block) { |h.w| == WORDS && 0 <= h.w[0] <= LOGBLOCKS }

  /** read_head: the first word is n, the next n words are block numbers. */
  function DecodeHead(h: Block): seq<int>
    requires HeadFits(h)
  {
    h.w[1..1 + h.w[0]]
  }

  /** write_head: overwrites n and the first n entries, keeps the rest. */
  function EncodeHead(h: Block, lh: seq<int>): Block
    requires |lh| <= LOGBLOCKS && |h.w| == WORDS
  {
    Block([|lh|] + lh + h.w[1 + |lh|..])
  }

  lemma HeadRoundTrip(h: Block, lh: seq<int>)
    requires |lh| <= LOGBLOCKS && |h.w| == WORDS
    ensures HeadFits(EncodeHead(h, lh)) && DecodeHead(EncodeHead(h, lh)) == lh
  {
    assert EncodeHead(h, lh).w[0] == |lh|;
  }

  predicate HasLog(d: Disk, start: nat) {
    forall b :: start <= b <= start + LOGBLOCKS ==> b in d
  }

  /** A disk on which recovery is safe: its header is well formed. */
  predicate Mountable(d: Disk, start: nat) {
    && HasLog(d, start)
    && InLog(start, start)
    && HeadFits(d[start])
    && Loggable(d, start, DecodeHead(d[start]))
  }

  function Head(d: Disk, start: nat): seq<int>
    requires Mountable(d, start)
  {
    DecodeHead(d[start])
  }

  function IndexOf(s: seq<int>, x: int): (i: nat)
    requires x in s
    ensures i < |s| && s[i] == x
  {
    if s[0] == x then 0 else 1 + IndexOf(s[1..], x)
  }

  /** The blocks outside the log area. */
  function Home(d: Disk, start: nat): map<int, Block> {
    map b | b in d && !InLog(start, b) :: d[b]
  }

  /** What the home blocks will hold once the disk has been recovered: a block named
      in the header is read from the log, any other from its home location.  This is
      the abstract, atomically changing disk. */
  function Durable(d: Disk, start: nat): map<int, Block>
    requires Mountable(d, start)
  {
    var lh := Head(d, start);
    map b | b in d && !InLog(start, b) ::
      if b in lh then LogSlot(d, start, IndexOf(lh, b)) else d[b]
  }

  function LogSlot(d: Disk, start: nat, i: nat): Block
    requires HasLog(d, start) && i < LOGBLOCKS
  {
    assert InLog(start, start + 1 + i);
    d[start + 1 + i]
  }

  // ----- the writes of commit() and recover_from_log() --------------------------

  function LogWrites(start: nat, data: seq<Block>): seq<Write> {
    seq(|data|, i requires 0 <= i < |data| => Write(start + 1 + i, data[i]))
  }

  function InstallWrites(lh: seq<int>, data: seq<Block>): seq<Write>
    requires |lh| == |data|
  {
    seq(|lh|, i requires 0 <= i < |lh| => Write(lh[i], data[i]))
  }

  /** commit(): write_log, write_head, install_trans, clear, write_head. */
  function CommitWrites(start: nat, h: Block, lh: seq<int>, data: seq<Block>): seq<Write>
    requires |lh| == |data| <= LOGBLOCKS && |h.w| == WORDS
  {
    if lh == [] then []
    else
      var h1 := EncodeHead(h, lh);
      LogWrites(start, data) + [Write(start, h1)] + InstallWrites(lh, data) + [Write(start, EncodeHead(h1, []))]
  }

  function LogData(d: Disk, start: nat, n: nat): seq<Block>
    requires HasLog(d, start) && n <= LOGBLOCKS
  {
    seq(n, i requires 0 <= i < n => LogSlot(d, start, i))
  }

  /** recover_from_log(): read_head, install_trans, clear, write_head. */
  function RecoveryWrites(d: Disk, start: nat): seq<Write>
    requires Mountable(d, start)
  {
    var lh := Head(d, start);
    InstallWrites(lh, LogData(d, start, |lh|)) + [Write(start, EncodeHead(d[start], []))]
  }

  // ----- single steps ----------------------------------------------------------

  lemma ApplyKeepsKeys(d: Disk, ws: seq<Write>)
    requires forall i :: 0 <= i < |ws| ==> ws[i].blockno in d
    ensures Apply(d, ws).Keys == d.Keys
  {
  }

  lemma {:induction false} ApplyElsewhere(d: Disk, ws: seq<Write>, b: int)
    requires forall i :: 0 <= i < |ws| ==> ws[i].blockno != b
    ensures b in Apply(d, ws) <==> b in d
    ensures b in d ==> Apply(d, ws)[b] == d[b]
  {
    if ws != [] {
      ApplyElsewhere(d, ws[..|ws| - 1], b);
    }
  }

  lemma {:induction false} ApplyDistinct(d: Disk, ws: seq<Write>, k: nat)
    requires k < |ws|
    requires forall i, j :: 0 <= i < j < |ws| ==> ws[i].blockno != ws[j].blockno
    ensures ws[k].blockno in Apply(d, ws) && Apply(d, ws)[ws[k].blockno] == ws[k].data
  {
    if k < |ws| - 1 {
      ApplyDistinct(d, ws[..|ws| - 1], k);
    }
  }

  lemma {:induction false} ApplyConcat(d: Disk, a: seq<Write>, b: seq<Write>)
    ensures Apply(d, a + b) == Apply(Apply(d, a), b)
  {
    if b == [] {
      assert a + b == a;
    } else {
      assert (a + b)[..|a + b| - 1] == a + b[..|b| - 1];
      ApplyConcat(d, a, b[..|b| - 1]);
    }
  }

  /** Filling log blocks under an empty header is invisible. */
  lemma LogPrefixInvisible(d: Disk, start: nat, data: seq<Block>, k: nat)
    requires Mountable(d, start) && Head(d, start) == [] && k <= |data| <= LOGBLOCKS
    ensures
      var e := Apply(d, LogWrites(start, data)[..k]);
      Mountable(e, start) && Head(e, start) == [] && Durable(e, start) == Durable(d, start)
      && e[start] == d[start] && e.Keys == d.Keys
      && forall i :: 0 <= i < k ==> LogSlot(e, start, i) == data[i]
  {
    var ws := LogWrites(start, data)[..k];
    var e := Apply(d, ws);
    forall i | 0 <= i < k ensures ws[i].blockno in d { assert InLog(start, start + 1 + i); }
    ApplyKeepsKeys(d, ws);
    forall b: int | b in d && !InLog(start, b) ensures e[b] == d[b] {
      ApplyElsewhere(d, ws, b);
    }
    ApplyElsewhere(d, ws, start);
    forall i | 0 <= i < k ensures LogSlot(e, start, i) == data[i] { ApplyDistinct(d, ws, i); }
  }

  /** What a transaction asks for: block lh[i] gets data[i]. */
  function Updates(lh: seq<int>, data: seq<Block>): map<int, Block>
    requires |lh| == |data|
  {
    map b: int | b in lh :: data[IndexOf(lh, b)]
  }

  /** The commit point: one header write makes the whole group durable. */
  lemma HeadWriteCommits(d: Disk, start: nat, lh: seq<int>, data: seq<Block>)
    requires Mountable(d, start) && Head(d, start) == [] && Loggable(d, start, lh) && |data| == |lh|
    requires forall i :: 0 <= i < |lh| ==> LogSlot(d, start, i) == data[i]
    ensures
      var e := d[start := EncodeHead(d[start], lh)];
      Mountable(e, start) && Head(e, start) == lh
      && Durable(e, start) == Durable(d, start) + Updates(lh, data)
  {
    var e := d[start := EncodeHead(d[start], lh)];
    HeadRoundTrip(d[start], lh);
    assert Mountable(e, start);
    forall i | 0 <= i < |lh| ensures LogSlot(e, start, i) == data[i] {
      assert LogSlot(d, start, i) == data[i];
    }
  }

  /** What the first k installation writes do to the disk. */
  lemma InstallEffect(d: Disk, start: nat, lh: seq<int>, data: seq<Block>, k: nat)
    requires HasLog(d, start) && Loggable(d, start, lh) && |data| == |lh| && k <= |lh|
    ensures var e := Apply(d, InstallWrites(lh, data)[..k]);
      && e.Keys == d.Keys
      && (forall b: int :: b in d && (InLog(start, b) || b !in lh) ==> e[b] == d[b])
      && (forall i :: 0 <= i < k ==> e[lh[i]] == data[i])
  {
    var ws := InstallWrites(lh, data)[..k];
    hide Apply;
    assert forall i :: 0 <= i < k ==> ws[i] == Write(lh[i], data[i]);
    ApplyKeepsKeys(d, ws);
    forall b: int | b in d && (InLog(start, b) || b !in lh) ensures Apply(d, ws)[b] == d[b] { ApplyElsewhere(d, ws, b); }
    forall i: nat | i < k ensures Apply(d, ws)[lh[i]] == data[i] { ApplyDistinct(d, ws, i); }
  }

  /** What is durable depends on the header, the slots it uses, and the blocks it does not name. */
  lemma DurableKept(d: Disk, e: Disk, start: nat)
    requires Mountable(d, start) && e.Keys == d.Keys && e[start] == d[start]
    requires forall b: int :: b in d && (InLog(start, b) || b !in Head(d, start)) ==> e[b] == d[b]
    ensures Mountable(e, start) && Durable(e, start) == Durable(d, start)
  {
    forall i: nat | i < LOGBLOCKS ensures LogSlot(e, start, i) == LogSlot(d, start, i) {
      assert InLog(start, start + 1 + i);
    }
  }

  /** Copying log blocks to their home locations is invisible, and is complete for
      the blocks already copied. */
  lemma InstallInvisible(d: Disk, start: nat, k: nat)
    requires Mountable(d, start) && k <= |Head(d, start)|
    ensures
      var lh := Head(d, start);
      var e := Apply(d, InstallWrites(lh, LogData(d, start, |lh|))[..k]);
      Mountable(e, start) && e[start] == d[start] && e.Keys == d.Keys
      && Durable(e, start) == Durable(d, start)
      && (forall i :: 0 <= i < |lh| ==> LogSlot(e, start, i) == LogSlot(d, start, i))
      && forall i :: 0 <= i < k ==> e[lh[i]] == LogSlot(d, start, i)
  {
    var lh := Head(d, start);
    var data := LogData(d, start, |lh|);
    hide InstallWrites, Durable, Apply;
    InstallEffect(d, start, lh, data, k);
    var e := Apply(d, InstallWrites(lh, data)[..k]);
    forall i: nat | i < |lh| ensures LogSlot(e, start, i) == LogSlot(d, start, i) {
      assert InLog(start, start + 1 + i);
    }
    DurableKept(d, e, start);
  }

  /** Clearing the header after a complete installation is invisible. */
  lemma ClearInvisible(d: Disk, start: nat)
    requires Mountable(d, start)
    requires forall i :: 0 <= i < |Head(d, start)| ==> d[Head(d, start)[i]] == LogSlot(d, start, i)
    ensures
      var e := d[start := EncodeHead(d[start], [])];
      Mountable(e, start) && Head(e, start) == [] && e.Keys == d.Keys
      && Durable(e, start) == Durable(d, start) == Home(e, start)
  {
    HeadRoundTrip(d[start], []);
  }

  // ----- crash and recovery -----------------------------------------------------

  function Cut(ws: seq<Write>, k: nat): seq<Write> { if k < |ws| then ws[..k] else ws }

  /** A recovery that is itself cut off after k writes. */
  function RecoverCut(d: Disk, start: nat, k: nat): Disk
    requires Mountable(d, start)
  {
    Apply(d, Cut(RecoveryWrites(d, start), k))
  }

  function Recover(d: Disk, start: nat): Disk
    requires Mountable(d, start)
  {
    Apply(d, RecoveryWrites(d, start))
  }

  /** No prefix of recovery changes what recovery will produce; a complete one
      produces exactly that, with an empty log. */
  lemma RecoverCutInvisible(d: Disk, start: nat, k: nat)
    requires Mountable(d, start)
    ensures
      var e := RecoverCut(d, start, k);
      Mountable(e, start) && e.Keys == d.Keys && Durable(e, start) == Durable(d, start)
      && (k > |Head(d, start)| ==> Head(e, start) == [] && Home(e, start) == Durable(d, start))
  {
    var lh := Head(d, start);
    var ins := InstallWrites(lh, LogData(d, start, |lh|));
    var ws := RecoveryWrites(d, start);
    if k <= |lh| {
      assert Cut(ws, k) == ins[..k];
      InstallInvisible(d, start, k);
    } else {
      assert Cut(ws, k) == ws;
      assert ws[..|ws| - 1] == ins == ins[..|lh|];
      InstallInvisible(d, start, |lh|);
      ClearInvisible(Apply(d, ins), start);
    }
  }

  /** Any number of recoveries, each cut short, one after the other. */
  function RecoverCuts(d: Disk, start: nat, cuts: seq<nat>): (e: Disk)
    requires Mountable(d, start)
    ensures Mountable(e, start) && e.Keys == d.Keys && Durable(e, start) == Durable(d, start)
  {
    if cuts == [] then d
    else
      RecoverCutInvisible(d, start, cuts[0]);
      RecoverCuts(RecoverCut(d, start, cuts[0]), start, cuts[1..])
  }

  function ToCommitPoint(start: nat, h: Block, lh: seq<int>, data: seq<Block>): seq<Write>
    requires |lh| == |data| <= LOGBLOCKS && |h.w| == WORDS
  {
    LogWrites(start, data) + [Write(start, EncodeHead(h, lh))]
  }

  lemma CommitPointReached(d: Disk, start: nat, lh: seq<int>, data: seq<Block>)
    requires Mountable(d, start) && Head(d, start) == [] && Loggable(d, start, lh) && |data| == |lh|
    ensures
      var e := Apply(d, ToCommitPoint(start, d[start], lh, data));
      Mountable(e, start) && e.Keys == d.Keys && Head(e, start) == lh && e[start] == EncodeHead(d[start], lh)
      && (forall i :: 0 <= i < |lh| ==> LogSlot(e, start, i) == data[i])
      && Durable(e, start) == Durable(d, start) + Updates(lh, data)
  {
    var logged := LogWrites(start, data);
    assert logged == logged[..|lh|];
    LogPrefixInvisible(d, start, data, |lh|);
    HeadWriteCommits(Apply(d, logged), start, lh, data);
    assert ToCommitPoint(start, d[start], lh, data)[..|lh|] == logged;
    var e := Apply(d, ToCommitPoint(start, d[start], lh, data));
    forall i | 0 <= i < |lh| ensures LogSlot(e, start, i) == data[i] {
      assert LogSlot(Apply(d, logged), start, i) == data[i];
    }
  }

  lemma CommitWritesSplit(start: nat, h: Block, lh: seq<int>, data: seq<Block>)
    requires 0 < |lh| == |data| <= LOGBLOCKS && |h.w| == WORDS
    ensures CommitWrites(start, h, lh, data)
         == ToCommitPoint(start, h, lh, data)
            + (InstallWrites(lh, data) + [Write(start, EncodeHead(EncodeHead(h, lh), []))])
  {
  }

  lemma CutConcat(a: seq<Write>, b: seq<Write>, k: nat)
    requires |a| <= k
    ensures Cut(a + b, k) == a + Cut(b, k - |a|)
  {
  }

  /** What commit() has made durable after its first k writes. */
  lemma CommitPrefixDurable(d: Disk, start: nat, lh: seq<int>, data: seq<Block>, k: nat)
    requires Mountable(d, start) && Head(d, start) == [] && Loggable(d, start, lh) && |data| == |lh|
    ensures
      var e := Apply(d, Cut(CommitWrites(start, d[start], lh, data), k));
      Mountable(e, start) && e.Keys == d.Keys
      && Durable(e, start) == (if k <= |lh| then Durable(d, start) else Durable(d, start) + Updates(lh, data))
      && (k > 2 * |lh| + 1 ==> Head(e, start) == [] && Home(e, start) == Durable(e, start))
  {
    var ws := CommitWrites(start, d[start], lh, data);
    if lh == [] {
      assert Cut(ws, k) == [];
      assert Updates(lh, data) == map[];
    } else if k <= |lh| {
      LogPrefixInvisible(d, start, data, k);
      assert Cut(ws, k) == LogWrites(start, data)[..k];
    } else {
      var pre := ToCommitPoint(start, d[start], lh, data);
      CommitPointReached(d, start, lh, data);
      CommitTail(Apply(d, pre), start, lh, data, k - |lh| - 1);
      var tail := InstallWrites(lh, data) + [Write(start, EncodeHead(EncodeHead(d[start], lh), []))];
      CommitWritesSplit(start, d[start], lh, data);
      CutConcat(pre, tail, k);
      ApplyConcat(d, pre, Cut(tail, k - |lh| - 1));
    }
  }

  /** The part of commit() after the commit point behaves like a recovery. */
  lemma CommitTail(d: Disk, start: nat, lh: seq<int>, data: seq<Block>, k: nat)
    requires Mountable(d, start) && Head(d, start) == lh && |data| == |lh|
    requires forall i :: 0 <= i < |lh| ==> LogSlot(d, start, i) == data[i]
    ensures
      var e := Apply(d, Cut(InstallWrites(lh, data) + [Write(start, EncodeHead(d[start], []))], k));
      Mountable(e, start) && e.Keys == d.Keys && Durable(e, start) == Durable(d, start)
      && (k > |lh| ==> Head(e, start) == [] && Home(e, start) == Durable(d, start))
  {
    assert LogData(d, start, |lh|) == data;
    RecoverCutInvisible(d, start, k);
  }

  lemma NoLogDurable(d: Disk, start: nat)
    requires Mountable(d, start) && Head(d, start) == []
    ensures Durable(d, start) == Home(d, start)
  {
  }

  /** After any number of cut recoveries and a complete one the home blocks hold what was durable. */
  lemma RecoveredHome(d: Disk, start: nat, cuts: seq<nat>)
    requires Mountable(d, start)
    ensures var e := Recover(RecoverCuts(d, start, cuts), start);
      Mountable(e, start) && Head(e, start) == [] && e.Keys == d.Keys && Home(e, start) == Durable(d, start)
  {
    hide Apply, Durable, Home, Mountable;
    var r := RecoverCuts(d, start, cuts);
    RecoverCutInvisible(r, start, |Head(r, start)| + 1);
    assert RecoverCut(r, start, |Head(r, start)| + 1) == Recover(r, start);
  }

  /** Crash atomicity.  Commit is cut after k writes, then come any number of cut
      recoveries, then one complete recovery: the home blocks are all old or all
      new, and all new exactly when the first header write reached the disk. */
  lemma CrashAtomicity(d: Disk, start: nat, lh: seq<int>, data: seq<Block>, k: nat, cuts: seq<nat>)
    requires Mountable(d, start) && Head(d, start) == [] && Loggable(d, start, lh) && |data| == |lh|
    ensures
      var crashed := Apply(d, Cut(CommitWrites(start, d[start], lh, data), k));
      Mountable(crashed, start) &&
      var e := Recover(RecoverCuts(crashed, start, cuts), start);
      Mountable(e, start) && Head(e, start) == [] && e.Keys == d.Keys
      && Home(e, start) == if k <= |lh| then Home(d, start) else Home(d, start) + Updates(lh, data)
  {
    hide Apply, CommitWrites, Cut, RecoverCuts, Recover, Durable, Home, Updates;
    CommitPrefixDurable(d, start, lh, data, k);
    RecoveredHome(Apply(d, Cut(CommitWrites(start, d[start], lh, data), k)), start, cuts);
    NoLogDurable(d, start);
  }

  // ----- whole runs -------------------------------------------------------------

  /** One group of operations: what it logs, after how many disk writes the machine
      crashes (a number beyond the last write means it does not), and where the
      recoveries that follow are cut. */
  datatype Group = Group(lh: seq<int>, data: seq<Block>, cut: nat, recoveries: seq<nat>)

  predicate GroupOk(d: Disk, start: nat, g: Group) {
    |g.data| == |g.lh| && Loggable(d, start, g.lh)
  }

  function RunGroup(d: Disk, start: nat, g: Group): Disk
    requires Mountable(d, start) && Head(d, start) == [] && GroupOk(d, start, g)
  {
    CommitPrefixDurable(d, start, g.lh, g.data, g.cut);
    var ws := CommitWrites(start, d[start], g.lh, g.data);
    var e := Apply(d, Cut(ws, g.cut));
    if g.cut >= |ws| then e else Recover(RecoverCuts(e, start, g.recoveries), start)
  }

  /** The abstract disk: a group happens entirely or not at all. */
  function AtomicGroup(home: map<int, Block>, g: Group): map<int, Block>
    requires |g.lh| == |g.data|
  {
    if g.cut <= |g.lh| then home else home + Updates(g.lh, g.data)
  }

  lemma GroupRefines(d: Disk, start: nat, g: Group)
    requires Mountable(d, start) && Head(d, start) == [] && GroupOk(d, start, g)
    ensures
      var e := RunGroup(d, start, g);
      Mountable(e, start) && Head(e, start) == [] && e.Keys == d.Keys
      && Home(e, start) == AtomicGroup(Home(d, start), g)
  {
    var ws := CommitWrites(start, d[start], g.lh, g.data);
    if g.lh == [] { NoUpdates(Home(d, start), g); }
    if g.cut >= |ws| {
      CommitPrefixDurable(d, start, g.lh, g.data, g.cut);
      assert Durable(d, start) == Home(d, start);
    } else {
      CrashAtomicity(d, start, g.lh, g.data, g.cut, g.recoveries);
    }
  }

  lemma NoUpdates(home: map<int, Block>, g: Group)
    requires g.lh == [] && g.data == []
    ensures home + Updates(g.lh, g.data) == home
  {
  }

  predicate GroupsOk(d: Disk, start: nat, gs: seq<Group>) {
    forall i :: 0 <= i < |gs| ==> GroupOk(d, start, gs[i])
  }

  function Run(d: Disk, start: nat, gs: seq<Group>): Disk
    requires Mountable(d, start) && Head(d, start) == [] && GroupsOk(d, start, gs)
    decreases |gs|
  {
    if gs == [] then d
    else
      GroupRefines(d, start, gs[0]);
      assert forall i :: 0 <= i < |gs[1..]| ==> gs[1..][i] == gs[1 + i] && GroupOk(d, start, gs[1 + i]);
      Run(RunGroup(d, start, gs[0]), start, gs[1..])
  }

  function AtomicRun(home: map<int, Block>, gs: seq<Group>): map<int, Block>
    requires forall i :: 0 <= i < |gs| ==> |gs[i].lh| == |gs[i].data|
    decreases |gs|
  {
    if gs == [] then home
    else AtomicRun(AtomicGroup(home, gs[0]), gs[1..])
  }

  /** Refinement over every run: with crashes anywhere in any commit and any number of
      interrupted recoveries, the disk is the one on which each group took effect
      atomically, and it is always left mountable with an empty log. */
  lemma {:induction false} RunRefinesAtomicDisk(d: Disk, start: nat, gs: seq<Group>)
    requires Mountable(d, start) && Head(d, start) == [] && GroupsOk(d, start, gs)
    ensures forall i :: 0 <= i < |gs| ==> GroupOk(d, start, gs[i])
    ensures
      var e := Run(d, start, gs);
      Mountable(e, start) && Head(e, start) == []
      && Home(e, start) == AtomicRun(Home(d, start), gs)
    decreases |gs|
  {
    if gs != [] {
      GroupRefines(d, start, gs[0]);
      assert forall i :: 0 <= i < |gs[1..]| ==> gs[1..][i] == gs[1 + i] && GroupOk(d, start, gs[1 + i]);
      RunRefinesAtomicDisk(RunGroup(d, start, gs[0]), start, gs[1..]);
    }
  }
}
