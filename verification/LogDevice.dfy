/** The code of kernel/log.c that talks to the disk, running over a cache of blocks:
    write_log, write_head, read_head, install_trans, commit, recover_from_log.

    Every block write is recorded in `trace`, and the disk is always what those writes
    make of the disk the device was opened with.  So the contracts below, which say
    what each routine appends to the trace, fix the order of the writes as well as
    their effect; the crash theorems of LogDisk quantify over the prefixes of exactly
    these sequences. */
module LogDevice {
  import opened Basics
  import opened LogDisk

  /** Cached copies may differ from the disk only for the blocks in `dirty`. */
  ghost predicate Agrees(cache: Disk, disk: Disk, dirty: set<int>) {
    && cache.Keys <= disk.Keys
    && forall b :: b in cache && b !in dirty ==> cache[b] == disk[b]
  }

  /** The logged blocks are still cached, with the contents the group wants to make durable. */
  ghost predicate Pending(cache: Disk, lh: seq<int>, data: seq<Block>) {
    |data| == |lh| && forall i :: 0 <= i < |lh| ==> lh[i] in cache && cache[lh[i]] == data[i]
  }

  /** The pinned blocks are those from position `tail` of the list on. */
  ghost predicate PinsFrom(pins: set<int>, lh: seq<int>, tail: nat) {
    tail <= |lh| && pins == Elements(lh[tail..])
  }

  /** Nobody references a block of the log area. */
  ghost predicate LogIdle(refs: multiset<int>, start: nat) { forall b :: b in refs ==> !InLog(start, b) }

  /** What bread(b) returns. */
  function View(cache: Disk, disk: Disk, b: int): Block
    requires b in disk
  {
    if b in cache then cache[b] else disk[b]
  }

  // ----- NBUF buffers ----------------------------------------------------------------------------

  /** One reference more, one less. */
  function Ref(refs: multiset<int>, b: int): multiset<int> { refs + multiset{b} }
  function Unref(refs: multiset<int>, b: int): multiset<int> { refs - multiset{b} }

  /** The blocks whose buffers cannot be recycled: pinned by the log, or referenced. */
  function Busy(pins: set<int>, refs: multiset<int>): set<int> { pins + (set b | b in refs) }

  ghost predicate Fits(cache: Disk, pins: set<int>, refs: multiset<int>) {
    |cache.Keys| <= NBUF && Busy(pins, refs) <= cache.Keys
  }

  /** The cache after bget of b and, if need be, a read from disk: another block may have been
      recycled for it, but no busy one. */
  ghost predicate Recycled(cache: Disk, cache': Disk, busy: set<int>, b: int, data: Block) {
    && b in cache' && cache'[b] == data
    && (forall x :: x in cache' && x != b ==> x in cache && cache'[x] == cache[x])
    && busy <= cache'.Keys
  }

  /** With every buffer busy, a block that is not busy is not cached. */
  lemma NoneToSpare(cache: Disk, pins: set<int>, refs: multiset<int>, b: int)
    requires Fits(cache, pins, refs) && b !in Busy(pins, refs)
    ensures |Busy(pins, refs)| >= NBUF ==> b !in cache
  {
    SubsetSize(Busy(pins, refs), cache.Keys);
  }

  /** A buffer to spare is there exactly while fewer than NBUF are busy. */
  lemma SpareIff(cache: Disk, pins: set<int>, refs: multiset<int>)
    requires Fits(cache, pins, refs)
    ensures |cache.Keys| < NBUF || |cache.Keys - Busy(pins, refs)| > 0 <==> |Busy(pins, refs)| < NBUF
  {
    hide Busy;
    DiffSize(cache.Keys, Busy(pins, refs));
  }

  lemma FitsKeys(cache: Disk, pins: set<int>, refs: multiset<int>)
    requires Fits(cache, pins, refs)
    ensures |cache.Keys| <= NBUF && Busy(pins, refs) <= cache.Keys
  {
  }

  lemma Dropped(cache: Disk, pins: set<int>, refs: multiset<int>, v: int)
    requires Fits(cache, pins, refs) && v in cache && v !in Busy(pins, refs)
    ensures |(cache - {v}).Keys| < NBUF && Busy(pins, refs) <= (cache - {v}).Keys <= cache.Keys
  {
    hide Busy;
    assert (cache - {v}).Keys == cache.Keys - {v};
  }

  lemma BusyMore(pins: set<int>, refs: multiset<int>, b: int)
    ensures Busy(pins, Ref(refs, b)) == Busy(pins, refs) + {b}
  {
  }

  lemma BusyLess(pins: set<int>, refs: multiset<int>, b: int)
    ensures Busy(pins, Unref(refs, b)) <= Busy(pins, refs)
  {
  }

  /** Reading block b into a buffer; cache1 is the cache without the block recycled for it. */
  lemma Loaded(cache: Disk, disk: Disk, pins: set<int>, refs: multiset<int>, cache1: Disk, b: int)
    requires Agrees(cache, disk, pins) && Fits(cache, pins, refs) && b in disk && b !in cache
    requires |cache1.Keys| < NBUF && Busy(pins, refs) <= cache1.Keys <= cache.Keys
    requires forall x :: x in cache1 ==> cache1[x] == cache[x]
    ensures Agrees(cache1[b := disk[b]], disk, pins) && Fits(cache1[b := disk[b]], pins, Ref(refs, b))
    ensures Recycled(cache, cache1[b := disk[b]], Busy(pins, refs), b, disk[b])
  {
    BusyMore(pins, refs, b);
    hide Busy;
    assert cache1[b := disk[b]].Keys == cache1.Keys + {b};
  }

  lemma Referenced(cache: Disk, disk: Disk, pins: set<int>, refs: multiset<int>, b: int)
    requires Fits(cache, pins, refs) && b in cache
    ensures Fits(cache, pins, Ref(refs, b)) && Recycled(cache, cache, Busy(pins, refs), b, cache[b])
  {
    BusyMore(pins, refs, b);
    hide Busy;
  }

  /** Pinned contents survive. */
  lemma RecycledPending(cache: Disk, lh: seq<int>, data: seq<Block>, pins: set<int>, refs: multiset<int>, cache': Disk, b: int, d: Block)
    requires Pending(cache, lh, data) && PinsFrom(pins, lh, 0)
    requires Recycled(cache, cache', Busy(pins, refs), b, d) && (b in cache ==> d == cache[b])
    ensures Pending(cache', lh, data)
  {
    var busy := Busy(pins, refs);
    assert pins <= busy && lh[0..] == lh;
    hide Busy;
    forall i | 0 <= i < |lh| ensures lh[i] in cache' && cache'[lh[i]] == data[i] {
      assert lh[i] in Elements(lh) && lh[i] in cache && cache[lh[i]] == data[i];
      assert lh[i] in busy && lh[i] in cache';
      if lh[i] == b { assert cache'[lh[i]] == d; } else { assert cache'[lh[i]] == cache[lh[i]]; }
    }
  }

  lemma PendingAt(cache: Disk, lh: seq<int>, data: seq<Block>, i: nat)
    requires Pending(cache, lh, data) && i < |lh|
    ensures |data| == |lh| && lh[i] in cache && cache[lh[i]] == data[i]
  {
  }

  lemma PendingSize(cache: Disk, lh: seq<int>, data: seq<Block>)
    requires Pending(cache, lh, data)
    ensures |data| == |lh|
  {
  }

  /** Writing a log block leaves the logged blocks alone. */
  lemma PendingKept(cache: Disk, lh: seq<int>, data: seq<Block>, l: int, d: Block)
    requires Pending(cache, lh, data) && l !in lh
    ensures Pending(cache[l := d], lh, data)
  {
  }

  /** Log block `tail` is neither pinned nor referenced. */
  lemma LogBlockIdle(disk: Disk, start: nat, lh: seq<int>, tail: nat, refs: multiset<int>, pins: set<int>)
    requires HasLog(disk, start) && Loggable(disk, start, lh) && tail < |lh| && PinsFrom(pins, lh, 0)
    requires LogIdle(refs, start)
    ensures var l := start + 1 + tail;
      l in disk && l !in lh && l !in Busy(pins, refs) && lh[tail] in disk && l != lh[tail]
  {
    assert InLog(start, start + 1 + tail) && lh[0..] == lh;
  }

  lemma RefUnref(refs: multiset<int>, a: int)
    ensures Unref(Ref(refs, a), a) == refs && a in Ref(refs, a)
  {
  }

  lemma RefMore(refs: multiset<int>, a: int, b: int)
    ensures Ref(Ref(refs, a), b) == Ref(Ref(refs, b), a) && (a in refs ==> a in Ref(refs, b))
    ensures a != b && a in refs ==> a in Unref(refs, b)
  {
  }

  /** Two references taken and given back, in either order. */
  lemma RefsBack(refs: multiset<int>, a: int, b: int)
    ensures Unref(Unref(Ref(Ref(refs, a), b), b), a) == refs && Unref(Unref(Ref(Ref(refs, a), b), a), b) == refs
    ensures Unref(Ref(refs, a), a) == refs && a in Ref(refs, a) && a in Ref(Ref(refs, a), b) && b in Ref(Ref(refs, a), b)
  {
    hide Ref, Unref;
    RefUnref(refs, a);
    RefUnref(refs, b);
    RefUnref(Ref(refs, a), b);
    RefUnref(Ref(refs, b), a);
    RefMore(refs, a, b);
    RefMore(Ref(refs, a), a, b);
  }

  lemma BusyCached(cache: Disk, pins: set<int>, refs: multiset<int>, b: int)
    requires Fits(cache, pins, refs) && b in refs
    ensures b in cache
  {
    assert b in Busy(pins, refs);
  }

  lemma KeysKept(disk: Disk, disk': Disk, start: nat, lh: seq<int>)
    requires HasLog(disk, start) && Loggable(disk, start, lh) && disk'.Keys == disk.Keys
    ensures HasLog(disk', start) && Loggable(disk', start, lh) && start in disk'
  {
  }

  class Device {
    const start: nat
    ghost const base: Disk
    var disk: Disk
    var cache: Disk              // the buffers that hold a block
    var pins: set<int>           // blocks pinned by log_write
    var refs: multiset<int>      // references held through bget
    var lh: seq<int>             // in-memory log header
    ghost var trace: seq<Write>

    constructor (start: nat, disk: Disk)
      requires HasLog(disk, start) && |disk[start].w| == WORDS
      ensures Valid() && this.start == start && base == this.disk == disk
      ensures cache == map[] && pins == {} && refs == multiset{} && lh == [] && trace == []
    {
      this.start, this.disk, base := start, disk, disk;
      cache, pins, refs, lh, trace := map[], {}, multiset{}, [], [];
      assert Busy({}, multiset{}) == {};
    }

    ghost predicate Traced()
      reads this
    {
      disk == Apply(base, trace)
    }

    /** The cache is within its buffers and current except for pinned blocks. */
    ghost predicate Cached()
      reads this
    {
      Agrees(cache, disk, pins) && Fits(cache, pins, refs)
    }

    ghost predicate Valid()
      reads this
    {
      && HasLog(disk, start)
      && Loggable(disk, start, lh)
      && |disk[start].w| == WORDS
      && Traced() && Cached()
    }

    /** bget and the read of bread; false is the "no buffers" panic.  Which buffer is recycled is
        bget's least-recently-used choice, left open here. */
    method Bread(b: int) returns (ok: bool, data: Block)
      requires b in disk && Cached()
      modifies this`cache, this`refs
      ensures ok <==> b in old(cache) || |Busy(pins, old(refs))| < NBUF
      ensures Cached() && data == View(old(cache), disk, b)
      ensures !ok ==> cache == old(cache) && refs == old(refs)
      ensures ok ==> refs == Ref(old(refs), b) && Recycled(old(cache), cache, Busy(pins, old(refs)), b, data)
    {
      SpareIff(cache, pins, refs);
      hide Busy, Agrees, Fits, Recycled, Ref;
      if b in cache {
        Referenced(cache, disk, pins, refs, b);
        refs := Ref(refs, b);
        return true, cache[b];
      }
      data := disk[b];
      ghost var cache0 := cache;
      if |cache.Keys| >= NBUF {
        var spare := cache.Keys - Busy(pins, refs);
        if |spare| == 0 { return false, data; }
        var v := Recycle(spare);
        Dropped(cache, pins, refs, v);
        cache := cache - {v};
      } else {
        FitsKeys(cache, pins, refs);
      }
      Loaded(cache0, disk, pins, refs, cache, b);
      cache := cache[b := data];
      refs := Ref(refs, b);
      ok := true;
    }

    method Recycle<T>(spare: set<T>) returns (v: T)
      requires |spare| > 0
      ensures v in spare
    {
      v :| v in spare;
    }

    method Brelse(b: int)
      requires Cached() && b in refs
      modifies this`refs
      ensures Cached() && refs == Unref(old(refs), b)
    {
      BusyLess(pins, refs, b);
      refs := Unref(refs, b);
    }

    method Bwrite(b: int, data: Block)
      requires Traced() && Cached() && b in disk && b in refs
      modifies this`cache, this`disk, this`trace
      ensures Traced() && cache == old(cache)[b := data] && disk == old(disk)[b := data]
      ensures trace == old(trace) + [Write(b, data)] && Cached()
    {
      assert b in Busy(pins, refs);
      cache := cache[b := data];
      assert cache.Keys == old(cache).Keys;
      disk := disk[b := data];
      trace := trace + [Write(b, data)];
      assert trace[..|trace| - 1] == old(trace);
    }

    /** memmove between two buffers held, bwrite of the second, brelse of both. */
    method CopyOver(src: int, dst: int)
      requires Traced() && Cached() && src != dst && src in refs && dst in refs && dst in disk && src in cache
      modifies this`cache, this`disk, this`trace, this`refs
      ensures Traced() && Cached() && refs == Unref(Unref(old(refs), src), dst)
      ensures cache == old(cache)[dst := old(cache)[src]] && disk == old(disk)[dst := old(cache)[src]]
      ensures trace == old(trace) + [Write(dst, old(cache)[src])]
    {
      hide Agrees, Fits, Apply, Ref, Unref;
      RefMore(refs, dst, src);
      Bwrite(dst, cache[src]);
      Brelse(src);
      Brelse(dst);
    }

    /** One iteration of write_log: cache block lh[tail] goes to its log block.  It panics exactly
        when every buffer is pinned or referenced, before any write. */
    method WriteLogBlock(tail: nat, ghost data: seq<Block>) returns (panic: bool)
      requires Valid() && Pending(cache, lh, data) && PinsFrom(pins, lh, 0) && LogIdle(refs, start) && tail < |lh|
      modifies this`cache, this`disk, this`trace, this`refs
      ensures Valid() && Pending(cache, lh, data) && refs == old(refs) && disk.Keys == old(disk).Keys
      ensures panic <==> |Busy(pins, refs)| >= NBUF
      ensures panic ==> disk == old(disk) && trace == old(trace)
      ensures !panic ==> disk == old(disk)[start + 1 + tail := data[tail]]
      ensures !panic ==> trace == old(trace) + [Write(start + 1 + tail, data[tail])]
    {
      hide Agrees, Fits, Loggable, Busy, Recycled, Pending, HasLog, PinsFrom, Apply, LogIdle, Ref, Unref;
      RefsBack(refs, start + 1 + tail, lh[tail]);
      ghost var cache0 := cache;
      var l := start + 1 + tail;
      LogBlockIdle(disk, start, lh, tail, refs, pins);
      NoneToSpare(cache, pins, refs, l);
      var ok, to := Bread(l);
      if !ok { return true; }
      RecycledPending(cache0, lh, data, pins, old(refs), cache, l, to);
      PendingAt(cache, lh, data, tail);
      ghost var cache1, refs1 := cache, refs;
      var ok2, from := Bread(lh[tail]);
      assert from == data[tail] && disk == old(disk) && trace == old(trace);
      RecycledPending(cache1, lh, data, pins, refs1, cache, lh[tail], from);
      PendingKept(cache, lh, data, l, from);
      KeysKept(disk, disk[l := from], start, lh);
      RefsBack(old(refs), l, lh[tail]);
      BusyCached(cache, pins, refs, lh[tail]);
      CopyOver(lh[tail], l);
      panic := false;
    }
  
    /** write_log: the log-area writes of the pending blocks, in order; or the panic, before any. */
    method WriteLog(ghost data: seq<Block>) returns (panic: bool)
      requires Valid() && Pending(cache, lh, data) && PinsFrom(pins, lh, 0) && LogIdle(refs, start)
      modifies this`cache, this`disk, this`trace, this`refs
      ensures Valid() && Pending(cache, lh, data) && disk.Keys == old(disk).Keys && refs == old(refs)
      ensures panic <==> lh != [] && |Busy(pins, refs)| >= NBUF
      ensures panic ==> disk == old(disk) && trace == old(trace)
      ensures !panic ==> trace == old(trace) + LogWrites(start, data) && disk[start] == old(disk)[start]
    {
      hide Agrees, Fits, Loggable, Busy, Pending, PinsFrom, Apply, LogIdle;
      PendingSize(cache, lh, data);
      ghost var ws := LogWrites(start, data);
      panic := false;
      var tail := 0;
      while tail < |lh|
        invariant 0 <= tail <= |lh| && !panic && refs == old(refs)
        invariant Valid() && Pending(cache, lh, data)
        invariant disk.Keys == old(disk).Keys && disk[start] == old(disk)[start]
        invariant trace == old(trace) + ws[..tail] && (tail == 0 ==> disk == old(disk))
        invariant tail > 0 ==> |Busy(pins, refs)| < NBUF
      {
        PendingAt(cache, lh, data, tail);
        Extend(old(trace), ws, tail, Write(start + 1 + tail, data[tail]));
        panic := WriteLogBlock(tail, data);
        if panic { return; }
        tail := tail + 1;
      }
      assert ws[..|lh|] == ws;
    }

    method WriteHead() returns (panic: bool)
      requires Valid() && start !in pins && start !in refs
      modifies this`cache, this`disk, this`trace, this`refs
      ensures Valid() && disk.Keys == old(disk).Keys && refs == old(refs)
      ensures panic <==> start !in old(cache) && |Busy(pins, refs)| >= NBUF
      ensures panic ==> disk == old(disk) && trace == old(trace)
      ensures !panic ==> disk == old(disk)[start := EncodeHead(old(disk)[start], lh)]
      ensures !panic ==> trace == old(trace) + [Write(start, EncodeHead(old(disk)[start], lh))]
    {
      hide Fits, Busy, Apply, Recycled, Ref, Unref;
      RefsBack(refs, start, start);
      HeadBlock(disk, start, lh);
      ghost var h0 := disk[start];
      CurrentAt(cache, disk, pins, start);
      hide Agrees, Loggable, HasLog;
      var ok, hb := Bread(start);
      if !ok { return true; }
      hb := EncodeLoop(hb);
      Bwrite(start, hb);
      KeysKept(old(disk), disk, start, lh);
      Brelse(start);
      panic := false;
    }

    /** hb->n = n and the loop over the entries. */
    method EncodeLoop(h: Block) returns (hb: Block)
      requires |lh| <= LOGBLOCKS && |h.w| == WORDS
      ensures hb == EncodeHead(h, lh) && |hb.w| == WORDS
    {
      hb := Block(h.w[0 := |lh|]);
      var i := 0;
      while i < |lh|
        invariant 0 <= i <= |lh|
        invariant hb == Block([|lh|] + lh[..i] + h.w[1 + i..])
      {
        hb := Block(hb.w[1 + i := lh[i]]);
        i := i + 1;
      }
    }

    method ReadHead()
      requires Valid() && cache == map[] && pins == {} && refs == multiset{} && lh == [] && Mountable(disk, start)
      modifies this`cache, this`lh, this`refs
      ensures Valid() && lh == Head(disk, start) && pins == {} && refs == multiset{}
    {
      hide Fits, Recycled, Apply;
      assert Busy({}, multiset{}) == {};
      hide Busy;
      CurrentAt(cache, disk, pins, start);
      var ok, h := Bread(start);
      Brelse(start);
      assert refs == multiset{};
      var block: seq<int> := [];
      var i := 0;
      while i < h.w[0]
        invariant 0 <= i <= h.w[0]
        invariant block == h.w[1..1 + i]
      {
        block := block + [h.w[1 + i]];
        i := i + 1;
      }
      lh := block;
    }

    /** One iteration of install_trans: log block `tail` goes to its home location.  A commit has
        the home block pinned, and recovery runs alone, so neither runs out of buffers. */
    method InstallBlock(tail: nat, recovering: bool)
      requires Valid() && tail < |lh|
      requires if recovering then pins == {} && refs == multiset{}
               else PinsFrom(pins, lh, tail) && LogIdle(refs, start) && |Busy(pins, refs)| < NBUF
      modifies this`cache, this`disk, this`trace, this`refs, this`pins
      ensures Valid() && refs == old(refs) && Busy(pins, refs) <= Busy(old(pins), refs)
      ensures if recovering then pins == {} else PinsFrom(pins, lh, tail + 1)
      ensures disk == old(disk)[lh[tail] := LogSlot(old(disk), start, tail)] && disk.Keys == old(disk).Keys
      ensures trace == old(trace) + [Write(lh[tail], LogSlot(old(disk), start, tail))]
    {
      hide Agrees, Fits, Recycled, Apply, Busy, PinsFrom, LogIdle, LogSlot, Loggable, HasLog, View, Ref, Unref;
      InstallPlan(cache, disk, pins, refs, start, lh, tail, recovering);
      var l := start + 1 + tail;
      var ok, lbuf := Bread(l);
      RefsBack(old(refs), l, lh[tail]);
      RecycledKeeps(old(cache), cache, pins, old(refs), l, lbuf, lh[tail]);
      ghost var cache1, refs1 := cache, refs;
      var ok2, dbuf := Bread(lh[tail]);
      RecycledOther(cache1, cache, pins, refs1, lh[tail], dbuf, l);
      KeysKept(disk, disk[lh[tail] := lbuf], start, lh);
      assert cache[l] == lbuf == LogSlot(old(disk), start, tail);
      CopyOver(l, lh[tail]);
      if !recovering {
        LoggableDistinct(disk, start, lh);
        Unpinned(cache, disk, pins, refs, lh, tail);
        pins := pins - {lh[tail]};
      }
    }
  
    method InstallTrans(recovering: bool)
      requires Valid()
      requires if recovering then pins == {} && refs == multiset{}
               else PinsFrom(pins, lh, 0) && LogIdle(refs, start) && |Busy(pins, refs)| < NBUF
      modifies this`cache, this`disk, this`trace, this`refs, this`pins
      ensures Valid() && disk.Keys == old(disk).Keys && pins == {} && refs == old(refs)
      ensures Busy(pins, refs) <= Busy(old(pins), refs)
      ensures trace == old(trace) + InstallWrites(lh, LogData(old(disk), start, |lh|))
      ensures forall b :: InLog(start, b) ==> b in disk && disk[b] == old(disk)[b]
    {
      hide Agrees, Fits, Apply, Busy, PinsFrom, LogIdle, LogSlot;
      ghost var ws := InstallWrites(lh, LogData(disk, start, |lh|));
      LogDataAt(disk, start, lh);
      var tail := 0;
      while tail < |lh|
        invariant 0 <= tail <= |lh| && Valid() && refs == old(refs) && lh == old(lh)
        invariant if recovering then pins == {} else PinsFrom(pins, lh, tail)
        invariant Busy(pins, refs) <= Busy(old(pins), refs)
        invariant disk.Keys == old(disk).Keys && trace == old(trace) + ws[..tail]
        invariant forall b :: InLog(start, b) ==> b in disk && disk[b] == old(disk)[b]
      {
        ghost var disk1 := disk;
        SubsetSize(Busy(pins, refs), Busy(old(pins), refs));
        SlotKept(old(disk), disk, start, tail);
        Extend(old(trace), ws, tail, Write(lh[tail], LogSlot(disk, start, tail)));
        InstallBlock(tail, recovering);
        HomeWritten(old(disk), disk1, disk, start, lh, tail);
        tail := tail + 1;
      }
      if !recovering { PinsDone(pins, lh); }
      assert ws[..|lh|] == ws;
    }

    /** The four phases of commit() for a non-empty log.  Only the first bread of write_log can
        find no buffer, and then nothing has been written. */
    method WriteAndInstall(ghost data: seq<Block>) returns (panic: bool)
      requires Valid() && Pending(cache, lh, data) && PinsFrom(pins, lh, 0) && LogIdle(refs, start)
      requires Mountable(disk, start) && Head(disk, start) == [] && lh != []
      modifies this`cache, this`disk, this`trace, this`lh, this`refs, this`pins
      ensures Valid() && refs == old(refs) && disk.Keys == old(disk).Keys
      ensures panic <==> |Busy(old(pins), refs)| >= NBUF
      ensures panic ==> disk == old(disk) && trace == old(trace) && lh == old(lh) && pins == old(pins)
      ensures !panic ==> lh == [] && pins == {}
      ensures !panic ==> trace == old(trace) + CommitWrites(start, old(disk)[start], old(lh), data)
    {
      hide Agrees, Fits, Apply, Busy, PinsFrom, LogIdle, Pending, LogWrites, InstallWrites, CommitWrites, LogData, EncodeHead;
      ghost var d, t := disk, trace;
      PendingSize(cache, lh, data);
      StartIdle(pins, refs, lh, disk, start);
      panic := WriteLog(data);
      if panic { return; }
      panic := WriteHead();
      assert !panic;
      HeadWritten(d, start, lh, data, base, t);
      InstallTrans(false);
      SubsetSize(Busy(pins, refs), Busy(old(pins), refs));
      lh := [];
      panic := WriteHead();
      assert !panic;
      CommitTrace(t, start, d[start], old(lh), data);
    }

    /** commit(): it panics, with nothing written, exactly when the pinned and referenced blocks
        take up all NBUF buffers; otherwise the disk goes through exactly the writes of
        CommitWrites, readers see no change, the home blocks end up with the group's contents,
        the log is empty. */
    method Commit(ghost data: seq<Block>) returns (panic: bool)
      requires Valid() && Pending(cache, lh, data) && PinsFrom(pins, lh, 0) && LogIdle(refs, start)
      requires Mountable(disk, start) && Head(disk, start) == []
      modifies this`cache, this`disk, this`trace, this`lh, this`refs, this`pins
      ensures Valid() && refs == old(refs) && disk.Keys == old(disk).Keys
      ensures panic <==> old(lh) != [] && |Busy(old(pins), refs)| >= NBUF
      ensures refs == multiset{} ==> (panic <==> |old(lh)| >= NBUF)
      ensures panic ==> disk == old(disk) && trace == old(trace) && lh == old(lh)
      ensures !panic ==> lh == [] && pins == {}
      ensures !panic ==> trace == old(trace) + CommitWrites(start, old(disk)[start], old(lh), data)
      ensures Mountable(disk, start) && Head(disk, start) == []
      ensures !panic ==> Home(disk, start) == Home(old(disk), start) + Updates(old(lh), data)
      ensures !panic ==> Unseen(old(cache), old(disk), cache, disk, start)
    {
      hide Agrees, Fits, Busy, PinsFrom, LogIdle, Pending, CommitWrites, Mountable, Home, Updates, Unseen;
      ghost var d, t, cache0, pins0 := disk, trace, cache, pins;
      PendingSize(cache, lh, data);
      CommitTrace(t, start, disk[start], lh, data);
      CommitDone(disk, start, lh, data);
      PinsCount(pins, refs, lh, disk, start);
      ApplyConcat(base, t, CommitWrites(start, disk[start], lh, data));
      panic := false;
      if |lh| > 0 {
        panic := WriteAndInstall(data);
        if panic { return; }
      } else {
        PinsDone(pins, lh);
      }
      CommitInvisible(cache0, pins0, d, cache, disk, start, old(lh), data);
    }

    /** recover_from_log() at boot: from any mountable disk it performs exactly
        RecoveryWrites, and leaves the durable contents in their home blocks. */
    method RecoverFromLog()
      requires Valid() && cache == map[] && pins == {} && refs == multiset{} && lh == [] && Mountable(disk, start)
      modifies this`cache, this`disk, this`trace, this`lh, this`refs, this`pins
      ensures Valid() && lh == [] && pins == {} && refs == multiset{} && disk.Keys == old(disk).Keys
      ensures trace == old(trace) + RecoveryWrites(old(disk), start)
      ensures Mountable(disk, start) && Head(disk, start) == []
      ensures Home(disk, start) == Durable(old(disk), start)
    {
      ghost var d, t := disk, trace;
      assert Busy({}, multiset{}) == {};
      hide Agrees, Fits, Busy, RecoveryWrites, InstallWrites, LogData, Durable, Home;
      ReadHead();
      InstallTrans(true);
      lh := [];
      var panic := WriteHead();
      assert !panic;
      RecoveryTrace(t, d, start);
      RecoverCutInvisible(d, start, |Head(d, start)| + 1);
      ApplyConcat(base, t, RecoveryWrites(d, start));
    }
  }

  /** Readers of home blocks see what they saw before, and it is on disk. */
  ghost predicate Unseen(cache: Disk, disk: Disk, cache': Disk, disk': Disk, start: nat) {
    disk'.Keys == disk.Keys && forall b :: b in disk && !InLog(start, b) ==>
      View(cache', disk', b) == View(cache, disk, b) == disk'[b]
  }

  lemma LogDataAt(disk: Disk, start: nat, lh: seq<int>)
    requires HasLog(disk, start) && |lh| <= LOGBLOCKS
    ensures forall i :: 0 <= i < |lh| ==> LogData(disk, start, |lh|)[i] == LogSlot(disk, start, i)
  {
  }

  lemma SlotKept(d: Disk, d': Disk, start: nat, tail: nat)
    requires HasLog(d, start) && HasLog(d', start) && tail < LOGBLOCKS
    requires forall b :: InLog(start, b) ==> b in d' && d'[b] == d[b]
    ensures LogSlot(d', start, tail) == LogSlot(d, start, tail)
  {
    assert InLog(start, start + 1 + tail);
  }

  lemma HomeWritten(d: Disk, d1: Disk, d2: Disk, start: nat, lh: seq<int>, tail: nat)
    requires Loggable(d1, start, lh) && tail < |lh| && HasLog(d1, start)
    requires d2 == d1[lh[tail] := LogSlot(d1, start, tail)]
    requires forall b :: InLog(start, b) ==> b in d && b in d1 && d1[b] == d[b]
    ensures forall b :: InLog(start, b) ==> b in d2 && d2[b] == d[b]
  {
  }

  lemma PinsDone(pins: set<int>, lh: seq<int>)
    requires PinsFrom(pins, lh, |lh|)
    ensures pins == {}
  {
  }

  lemma StartIdle(pins: set<int>, refs: multiset<int>, lh: seq<int>, disk: Disk, start: nat)
    requires PinsFrom(pins, lh, 0) && LogIdle(refs, start) && Loggable(disk, start, lh)
    ensures start !in pins && start !in refs
  {
    assert lh[0..] == lh && InLog(start, start);
  }

  /** While nobody holds a buffer, the busy ones are those of the logged blocks. */
  lemma PinsCount(pins: set<int>, refs: multiset<int>, lh: seq<int>, disk: Disk, start: nat)
    requires PinsFrom(pins, lh, 0) && Loggable(disk, start, lh)
    ensures refs == multiset{} ==> |Busy(pins, refs)| == |lh|
  {
    assert lh[0..] == lh;
    DistinctSize(lh);
    if refs == multiset{} { assert Busy(pins, refs) == pins; }
  }

  lemma RecycledKeeps(cache: Disk, cache': Disk, pins: set<int>, refs: multiset<int>, b: int, d: Block, x: int)
    requires Recycled(cache, cache', Busy(pins, refs), b, d)
    ensures b in cache' && cache'[b] == d && (x in Busy(pins, refs) ==> x in cache')
  {
  }

  /** A block just read stays while another is read. */
  lemma RecycledOther(cache: Disk, cache': Disk, pins: set<int>, refs: multiset<int>, b: int, d: Block, x: int)
    requires Recycled(cache, cache', Busy(pins, refs), b, d) && x in refs && x != b
    ensures x in cache' && x in cache && cache'[x] == cache[x]
  {
    assert x in Busy(pins, refs);
  }

  lemma LoggableDistinct(disk: Disk, start: nat, lh: seq<int>)
    requires Loggable(disk, start, lh)
    ensures Distinct(lh)
  {
  }

  lemma HeadBlock(disk: Disk, start: nat, lh: seq<int>)
    requires HasLog(disk, start) && Loggable(disk, start, lh)
    ensures start in disk && |lh| <= LOGBLOCKS
  {
  }

  lemma CurrentAt(cache: Disk, disk: Disk, pins: set<int>, b: int)
    requires Agrees(cache, disk, pins) && b !in pins && b in disk
    ensures View(cache, disk, b) == disk[b]
  {
  }

  lemma Extend(t: seq<Write>, ws: seq<Write>, k: nat, w: Write)
    requires k < |ws| && ws[k] == w
    ensures t + ws[..k] + [w] == t + ws[..k + 1]
  {
  }

  /** The home block has been copied over and is unpinned. */
  lemma Unpinned(cache: Disk, disk: Disk, pins: set<int>, refs: multiset<int>, lh: seq<int>, tail: nat)
    requires Agrees(cache, disk, pins) && Fits(cache, pins, refs) && PinsFrom(pins, lh, tail) && Distinct(lh) && tail < |lh|
    requires lh[tail] in cache && lh[tail] in disk && cache[lh[tail]] == disk[lh[tail]]
    ensures var pins' := pins - {lh[tail]};
      Agrees(cache, disk, pins') && Fits(cache, pins', refs) && PinsFrom(pins', lh, tail + 1) && Busy(pins', refs) <= Busy(pins, refs)
  {
    assert lh[tail..] == [lh[tail]] + lh[tail + 1..];
    assert lh[tail] !in lh[tail + 1..];
    assert Busy(pins - {lh[tail]}, refs) <= Busy(pins, refs);
  }

  /** What install_trans finds at position tail: a log block that is current and idle, and a home
      block that is pinned, unless this is a recovery. */
  lemma InstallPlan(cache: Disk, disk: Disk, pins: set<int>, refs: multiset<int>, start: nat, lh: seq<int>, tail: nat, recovering: bool)
    requires Agrees(cache, disk, pins) && Fits(cache, pins, refs) && HasLog(disk, start) && Loggable(disk, start, lh) && tail < |lh|
    requires if recovering then pins == {} && refs == multiset{} else PinsFrom(pins, lh, tail) && LogIdle(refs, start)
    ensures var l := start + 1 + tail;
      && l in disk && l != lh[tail] && lh[tail] in disk && lh[tail] != start
      && View(cache, disk, l) == disk[l] == LogSlot(disk, start, tail)
      && (!recovering ==> lh[tail] in Busy(pins, refs))
      && (recovering ==> |Busy(pins, refs)| == 0 && |Busy(pins, Ref(refs, l))| == 1)
  {
    var l := start + 1 + tail;
    assert InLog(start, l) && lh[tail] in lh[tail..];
    if recovering {
      assert Busy(pins, refs) == {} && Busy(pins, Ref(refs, l)) == {l};
    } else {
      assert l !in lh[tail..];
    }
  }

  lemma CommitTrace(t: seq<Write>, start: nat, h: Block, lh: seq<int>, data: seq<Block>)
    requires |lh| == |data| <= LOGBLOCKS && |h.w| == WORDS
    ensures lh == [] ==> t + CommitWrites(start, h, lh, data) == t
    ensures lh != [] ==>
      var h1 := EncodeHead(h, lh);
      t + LogWrites(start, data) + [Write(start, h1)] + InstallWrites(lh, data) + [Write(start, EncodeHead(h1, []))]
      == t + CommitWrites(start, h, lh, data)
  {
  }

  lemma RecoveryTrace(t: seq<Write>, d: Disk, start: nat)
    requires Mountable(d, start)
    ensures
      var lh := Head(d, start);
      t + InstallWrites(lh, LogData(d, start, |lh|)) + [Write(start, EncodeHead(d[start], []))]
      == t + RecoveryWrites(d, start)
  {
  }

  lemma HeadWritten(d: Disk, start: nat, lh: seq<int>, data: seq<Block>, base: Disk, t: seq<Write>)
    requires d == Apply(base, t) && Mountable(d, start) && Head(d, start) == []
    requires Loggable(d, start, lh) && |data| == |lh|
    ensures
      var e := Apply(base, t + LogWrites(start, data) + [Write(start, EncodeHead(d[start], lh))]);
      HasLog(e, start) && e[start] == EncodeHead(d[start], lh) && LogData(e, start, |lh|) == data
  {
    var pre := ToCommitPoint(start, d[start], lh, data);
    assert t + LogWrites(start, data) + [Write(start, EncodeHead(d[start], lh))] == t + pre;
    ApplyConcat(base, t, pre);
    CommitPointReached(d, start, lh, data);
  }

  lemma CommitDone(d: Disk, start: nat, lh: seq<int>, data: seq<Block>)
    requires Mountable(d, start) && Head(d, start) == [] && Loggable(d, start, lh) && |data| == |lh|
    ensures
      var e := Apply(d, CommitWrites(start, d[start], lh, data));
      Mountable(e, start) && Head(e, start) == [] && e.Keys == d.Keys
      && Home(e, start) == Home(d, start) + Updates(lh, data)
  {
    GroupRefines(d, start, Group(lh, data, 2 * |lh| + 2, []));
  }

  lemma CommitInvisible(cache: Disk, pins: set<int>, d: Disk, cache': Disk, e: Disk, start: nat, lh: seq<int>, data: seq<Block>)
    requires Agrees(cache, d, pins) && PinsFrom(pins, lh, 0) && Pending(cache, lh, data) && e.Keys == d.Keys
    requires Agrees(cache', e, {}) && Home(e, start) == Home(d, start) + Updates(lh, data)
    ensures Unseen(cache, d, cache', e, start)
  {
    assert lh[0..] == lh;
    forall b | b in e && !InLog(start, b) ensures View(cache, d, b) == e[b] {
      assert e[b] == Home(e, start)[b];
    }
  }
}
