/** Files after a crash: the file system's calls (kernel/fs.c) as operations of the log
    (kernel/log.c), through the blocks they have on disk. */
module FileCrash {
  import opened Basics
  import opened FsBitmap
  import opened FsBlocks
  import opened FsContents
  import opened FsJournal
  import opened LogDisk
  import V = FileSystem
  import G = GroupCommit
  import C = CrashSafety
  import D = LogDevice

  // ----- bytes and words -------------------------------------------------------------------------------

  function ByteIn(x: int, m: int): Byte {
    if m == 0 then x % 256 else if m == 1 then x / 256 % 256
    else if m == 2 then x / 256 / 256 % 256 else x / 256 / 256 / 256 % 256
  }

  /** A block of words as bytes. */
  function Bytes(w: seq<int>): (d: seq<Byte>)
    requires |w| == NINDIRECT
    ensures |d| == BSIZE
  {
    seq(BSIZE, k requires 0 <= k < BSIZE => ByteIn(w[k / 4], k % 4))
  }

  lemma Parts(a: Byte, b: Byte, c: Byte, d: Byte, m: int)
    requires 0 <= m < 4
    ensures ByteIn(a as int + 0x100 * b as int + 0x1_0000 * c as int + 0x100_0000 * d as int, m)
         == if m == 0 then a else if m == 1 then b else if m == 2 then c else d
  {
    var x := a as int + 0x100 * b as int + 0x1_0000 * c as int + 0x100_0000 * d as int;
    assert x / 256 == b as int + 0x100 * c as int + 0x1_0000 * d as int;
    assert x / 256 / 256 == c as int + 0x100 * d as int;
    assert x / 256 / 256 / 256 == d;
  }

  lemma ByteOfWord(d: seq<Byte>, k: int)
    requires |d| == BSIZE && 0 <= k < BSIZE
    ensures ByteIn(Word(d, k / 4), k % 4) == d[k]
  {
    hide ByteIn;
    var q := 4 * (k / 4);
    Parts(d[q], d[q + 1], d[q + 2], d[q + 3], k % 4);
  }

  /** Bytes written as words read back. */
  lemma BytesBack(d: seq<Byte>)
    requires |d| == BSIZE
    ensures Bytes(Words(d)) == d
  {
    hide ByteIn, Word;
    forall k | 0 <= k < BSIZE ensures Bytes(Words(d))[k] == d[k] { ByteOfWord(d, k); }
  }

  // ----- the blocks of a file system -----------------------------------------------------------------------

  /** Where things are: the log, then inode blocks, then bitmap blocks, then data blocks; and the
      words with type, device and link count of each inode, which the calls here leave alone. */
  datatype Layout = Layout(start: nat, inodeStart: int, ninodes: nat, bmapStart: int, lo: int, hi: int, kinds: seq<(int, int)>)

  predicate Laid(l: Layout) {
    && l.start + LOGBLOCKS < l.inodeStart && l.inodeStart + (l.ninodes + 15) / 16 <= l.bmapStart
    && l.bmapStart + (l.hi + BPB - 1) / BPB <= l.lo <= l.hi
  }

  predicate InodeNo(l: Layout, b: int) { l.inodeStart <= b < l.inodeStart + (l.ninodes + 15) / 16 }

  predicate BitmapNo(l: Layout, b: int) { l.bmapStart <= b < l.bmapStart + (l.hi + BPB - 1) / BPB }

  predicate DataNo(l: Layout, b: int) { l.lo <= b < l.hi }

  predicate Used(l: Layout, b: int) { InodeNo(l, b) || BitmapNo(l, b) || DataNo(l, b) }

  /** A file system that fits the layout. */
  ghost predicate Fitting(l: Layout, fs: Fs) {
    Own(fs, Area(l.lo, l.hi), {}) && Shape(fs) && Sizes(fs) && |fs.inodes| == l.ninodes
  }

  /** Word m of inode i: two words of type, device and links, the size, and the thirteen addresses. */
  function InodeWord(kinds: seq<(int, int)>, inodes: seq<Inode>, i: int, m: int): int {
    if 0 <= i < |kinds| && m == 0 then kinds[i].0
    else if 0 <= i < |kinds| && m == 1 then kinds[i].1
    else if 0 <= i < |inodes| && m == 2 then inodes[i].size
    else if 0 <= i < |inodes| && 3 <= m < 3 + |inodes[i].addrs| then inodes[i].addrs[m - 3]
    else 0
  }

  function InodeBlock(kinds: seq<(int, int)>, inodes: seq<Inode>, j: int): (b: Block)
    ensures |b.w| == WORDS
  {
    Block(seq(WORDS, k requires 0 <= k < WORDS => InodeWord(kinds, inodes, 16 * j + k / 16, k % 16)))
  }

  /** The bits of n block numbers from base on, lowest first. */
  ghost function Bits(marked: set<int>, base: int, n: nat): int
    decreases n
  {
    if n == 0 then 0 else (if base in marked then 1 else 0) + 2 * Bits(marked, base + 1, n - 1)
  }

  ghost function BitmapBlock(marked: set<int>, j: int): Block {
    Block(seq(WORDS, k requires 0 <= k < WORDS => Bits(marked, BPB * j + 32 * k, 32)))
  }

  /** What the disk has at block b for file system fs. */
  ghost function BlockOf(l: Layout, fs: Fs, b: int): Block
    requires Used(l, b) && (DataNo(l, b) ==> HasData(fs.data, b))
  {
    if DataNo(l, b) then Block(Words(fs.data[b]))
    else if BitmapNo(l, b) then BitmapBlock(fs.marked, b - l.bmapStart)
    else InodeBlock(l.kinds, fs.inodes, b - l.inodeStart)
  }

  ghost predicate BlocksThere(l: Layout, fs: Fs) { forall b :: DataNo(l, b) ==> HasData(fs.data, b) }

  lemma FittingBlocks(l: Layout, fs: Fs)
    requires Fitting(l, fs)
    ensures BlocksThere(l, fs)
  {
  }

  /** The home blocks hold file system fs. */
  ghost predicate Shows(home: map<int, Block>, l: Layout, fs: Fs)
    requires BlocksThere(l, fs)
  {
    forall b :: Used(l, b) ==> b in home && home[b] == BlockOf(l, fs, b)
  }

  // ----- reading a file from the blocks ------------------------------------------------------------------------

  ghost predicate Readable(home: map<int, Block>, l: Layout) {
    forall b :: Used(l, b) ==> b in home && |home[b].w| == WORDS
  }

  ghost function InodeAt(home: map<int, Block>, l: Layout, i: int): Inode
    requires Readable(home, l) && Laid(l) && 0 <= i < l.ninodes
  {
    var w := home[l.inodeStart + i / 16].w;
    var o := 16 * (i % 16);
    Inode(w[o + 3..o + 16], if w[o + 2] < 0 then 0 else w[o + 2])
  }

  /** The inodes and data blocks as the kernel reads them back. */
  ghost function Decoded(home: map<int, Block>, l: Layout): Fs
    requires Readable(home, l) && Laid(l)
  {
    Fs(seq(l.ninodes, i requires 0 <= i < l.ninodes => InodeAt(home, l, i)),
       map b | l.lo <= b < l.hi :: Bytes(home[b].w), {}, map[])
  }

  lemma InodeBack(kinds: seq<(int, int)>, inodes: seq<Inode>, i: int, m: int)
    requires 0 <= i < |inodes| && 0 <= m < 16
    ensures InodeBlock(kinds, inodes, i / 16).w[16 * (i % 16) + m] == InodeWord(kinds, inodes, i, m)
  {
    hide InodeWord;
    var k := 16 * (i % 16) + m;
    assert k / 16 == i % 16 && k % 16 == m && 16 * (i / 16) + i % 16 == i;
  }

  lemma InodeReadBack(home: map<int, Block>, l: Layout, fs: Fs, i: int)
    requires Laid(l) && Fitting(l, fs) && BlocksThere(l, fs) && Shows(home, l, fs) && Readable(home, l) && 0 <= i < l.ninodes
    ensures InodeAt(home, l, i) == fs.inodes[i]
  {
    hide Own, Sizes, InodeBlock, BitmapBlock, Words, BlocksThere;
    var b := l.inodeStart + i / 16;
    assert InodeNo(l, b) && !DataNo(l, b) && !BitmapNo(l, b);
    assert home[b] == InodeBlock(l.kinds, fs.inodes, i / 16);
    var w, o := home[b].w, 16 * (i % 16);
    InodeBack(l.kinds, fs.inodes, i, 2);
    forall m | 0 <= m < 13 ensures w[o + 3..o + 16][m] == fs.inodes[i].addrs[m] { InodeBack(l.kinds, fs.inodes, i, m + 3); }
    assert w[o + 3..o + 16] == fs.inodes[i].addrs;
  }

  lemma ShowsReadable(home: map<int, Block>, l: Layout, fs: Fs)
    requires BlocksThere(l, fs) && Shows(home, l, fs)
    ensures Readable(home, l)
  {
    forall b | Used(l, b) ensures b in home && |home[b].w| == WORDS {
      assert home[b] == BlockOf(l, fs, b);
      if DataNo(l, b) { assert HasData(fs.data, b); }
    }
  }

  /** What is written is read back: inodes and data blocks. */
  lemma DecodedBack(home: map<int, Block>, l: Layout, fs: Fs)
    requires Laid(l) && Fitting(l, fs) && BlocksThere(l, fs) && Shows(home, l, fs) && Readable(home, l)
    ensures Decoded(home, l).inodes == fs.inodes
    ensures forall b :: DataNo(l, b) ==> b in Decoded(home, l).data && HasData(fs.data, b) && Decoded(home, l).data[b] == fs.data[b]
  {
    var got := Decoded(home, l);
    forall i | 0 <= i < l.ninodes ensures got.inodes[i] == fs.inodes[i] { InodeReadBack(home, l, fs, i); }
    hide Own, Sizes, Shape, InodeAt, Bytes, Words;
    forall b | DataNo(l, b) ensures b in got.data && HasData(fs.data, b) && got.data[b] == fs.data[b] {
      assert HasData(fs.data, b) && home[b] == BlockOf(l, fs, b);
      BytesBack(fs.data[b]);
    }
  }

  /** Two file systems with the same inodes and data blocks have the same files. */
  lemma SameFiles(l: Layout, fs: Fs, got: Fs)
    requires Fitting(l, fs) && got.inodes == fs.inodes
    requires forall b :: DataNo(l, b) ==> b in got.data && HasData(fs.data, b) && got.data[b] == fs.data[b]
    ensures Shape(got) && forall j :: 0 <= j < |fs.inodes| ==> SizeOk(got, j) && Contents(got, j) == Contents(fs, j)
  {
    forall i | 0 <= i < |fs.inodes| && fs.inodes[i].addrs[NDIRECT] != 0 ensures HasData(got.data, fs.inodes[i].addrs[NDIRECT]) {
      assert Addr(fs, Ind(i)) == fs.inodes[i].addrs[NDIRECT];
      assert DataNo(l, fs.inodes[i].addrs[NDIRECT]);
    }
    assert Shape(got);
    forall j, p | InFile(fs, j, p) ensures CellAt(got, j, p) == CellAt(fs, j, p) { SameCell(l, fs, got, j, p); }
    hide Own, CellAt, Contents;
    forall j | 0 <= j < |fs.inodes| ensures SizeOk(got, j) && Contents(got, j) == Contents(fs, j) {
      assert SizeOk(fs, j);
      SameBytes(fs, got, j);
    }
  }

  lemma SameCell(l: Layout, fs: Fs, got: Fs, j: int, p: int)
    requires Fitting(l, fs) && got.inodes == fs.inodes && Shape(got) && InFile(fs, j, p)
    requires forall b :: DataNo(l, b) ==> b in got.data && HasData(fs.data, b) && got.data[b] == fs.data[b]
    ensures CellAt(got, j, p) == CellAt(fs, j, p)
  {
    var r := SlotOf(j, p / BSIZE);
    assert RoleOk(fs, r) && RoleOk(fs, Ind(j));
    assert Addr(fs, Ind(j)) != 0 ==> DataNo(l, Addr(fs, Ind(j)));
    assert Addr(got, r) == Addr(fs, r);
    assert Addr(fs, r) != 0 ==> DataNo(l, Addr(fs, r));
  }

  lemma SameBytes(fs: Fs, got: Fs, j: int)
    requires Shape(fs) && Shape(got) && got.inodes == fs.inodes && 0 <= j < |fs.inodes| && SizeOk(fs, j)
    requires forall p :: InFile(fs, j, p) ==> CellAt(got, j, p) == CellAt(fs, j, p)
    ensures SizeOk(got, j) && Contents(got, j) == Contents(fs, j)
  {
    hide CellAt, Contents;
    forall p | 0 <= p < fs.inodes[j].size ensures CellAt(got, j, p) == CellAt(fs, j, p) { assert InFile(fs, j, p); }
    assert SizeOk(got, j);
    var x, y := Contents(got, j), Contents(fs, j);
    forall p | 0 <= p < |y| ensures x[p] == y[p] {
      assert CellAt(got, j, p) == Val(x[p]) && CellAt(fs, j, p) == Val(y[p]);
    }
  }

  /** The home blocks that hold fs have its files, byte for byte. */
  ghost predicate HasFiles(home: map<int, Block>, l: Layout, fs: Fs)
    requires Laid(l) && Shape(fs) && Sizes(fs)
  {
    && Readable(home, l) && Shape(Decoded(home, l)) && |fs.inodes| == l.ninodes
    && forall j :: 0 <= j < l.ninodes ==> SizeOk(Decoded(home, l), j) && Contents(Decoded(home, l), j) == Contents(fs, j)
  }

  lemma ShowsHasFiles(home: map<int, Block>, l: Layout, fs: Fs)
    requires Laid(l) && Fitting(l, fs) && BlocksThere(l, fs) && Shows(home, l, fs)
    ensures HasFiles(home, l, fs)
  {
    hide Own, Decoded, Sizes, Contents, SizeOk, Readable, Shows, BlocksThere, Shape;
    ShowsReadable(home, l, fs);
    DecodedBack(home, l, fs);
    SameFiles(l, fs, Decoded(home, l));
  }

  // ----- a call logs every block it changes ---------------------------------------------------------------------

  lemma {:induction false} BitsSame(m: set<int>, m': set<int>, base: int, n: nat)
    requires forall x :: base <= x < base + n ==> (x in m <==> x in m')
    ensures Bits(m, base, n) == Bits(m', base, n)
    decreases n
  {
    if n > 0 { BitsSame(m, m', base + 1, n - 1); }
  }

  lemma BitmapSame(m: set<int>, m': set<int>, j: int)
    requires forall x :: x / BPB == j ==> (x in m <==> x in m')
    ensures BitmapBlock(m, j) == BitmapBlock(m', j)
  {
    hide Bits;
    var x, y := BitmapBlock(m, j).w, BitmapBlock(m', j).w;
    forall k | 0 <= k < WORDS ensures x[k] == y[k] {
      forall z | BPB * j + 32 * k <= z < BPB * j + 32 * k + 32 ensures z in m <==> z in m' {
        assert z / BPB == j;
      }
      BitsSame(m, m', BPB * j + 32 * k, 32);
    }
  }

  lemma InodesSame(kinds: seq<(int, int)>, inodes: seq<Inode>, inodes': seq<Inode>, i: int, j: int)
    requires |inodes'| == |inodes| && (forall x :: 0 <= x < |inodes| && x != i ==> inodes'[x] == inodes[x]) && i / 16 != j
    ensures InodeBlock(kinds, inodes', j) == InodeBlock(kinds, inodes, j)
  {
    var x, y := InodeBlock(kinds, inodes', j).w, InodeBlock(kinds, inodes, j).w;
    forall k | 0 <= k < WORDS ensures x[k] == y[k] {
      assert 0 <= k / 16 < 16 && 16 * j + k / 16 != i;
    }
  }

  /** The disk blocks that a journaled call leaves alone are the same before and after it. */
  lemma UnloggedSame(l: Layout, fs: Fs, fs': Fs, i: int, log: set<int>, b: int)
    requires Laid(l) && BlocksThere(l, fs) && BlocksThere(l, fs') && |fs.inodes| == l.ninodes && 0 <= i < l.ninodes
    requires Journaled(fs, fs', i, {}, log, l.bmapStart) && i / 16 + l.inodeStart in log
    requires Used(l, b) && b !in log
    ensures BlockOf(l, fs', b) == BlockOf(l, fs, b)
  {
    hide Words, InodeBlock, BitmapBlock;
    if DataNo(l, b) {
      assert HasData(fs.data, b) && HasData(fs'.data, b);
    } else if BitmapNo(l, b) {
      BitmapSame(fs.marked, fs'.marked, b - l.bmapStart);
    } else {
      InodesSame(l.kinds, fs.inodes, fs'.inodes, i, b - l.inodeStart);
    }
  }

  // ----- calls as operations of a run ------------------------------------------------------------------------------

  /** Step k is the last log_write of block b before step n, and logs what fs has there. */
  ghost predicate LastPut(steps: seq<C.Step>, k: int, n: nat, op: nat, b: int, x: Block)
    requires n <= |steps|
  {
    0 <= k < n && steps[k] == C.Put(op, b, x) && forall j :: k < j < n ==> steps[j].Put? ==> steps[j].b != b
  }

  /** From step m to step n operation op logs exactly the blocks in `log`, in the end with the
      contents they have in fs. */
  ghost predicate Logs(steps: seq<C.Step>, m: nat, n: nat, op: nat, l: Layout, fs: Fs, log: set<int>)
    requires m <= n <= |steps| && BlocksThere(l, fs)
  {
    && (forall k :: m <= k < n && steps[k].Put? ==> steps[k].b in log)
    && (forall b :: b in log && Used(l, b) ==> exists k :: m <= k && LastPut(steps, k, n, op, b, BlockOf(l, fs, b)))
  }

  lemma LoggedBlock(ws: seq<C.World>, steps: seq<C.Step>, start: nat, k: int, n: nat, op: nat, b: int, x: Block)
    requires C.IsRun(ws, steps, start) && n <= |steps| && LastPut(steps, k, n, op, b, x)
    requires forall j :: k <= j < n ==> !steps[j].Crash?
    ensures b in ws[n].mem && ws[n].mem[b] == x
  {
    hide C.Enabled, C.Fresh;
    assert C.Next(ws[k], start, steps[k], ws[k + 1]);
    PutStores(ws[k], start, op, b, x);
    C.MemKept(ws, steps, start, k + 1, n, b);
  }

  lemma PutStores(w: C.World, start: nat, op: nat, b: int, x: Block)
    requires C.Enabled(w, start, C.Put(op, b, x))
    ensures b in C.Do(w, start, C.Put(op, b, x)).mem && C.Do(w, start, C.Put(op, b, x)).mem[b] == x
  {
  }

  /** So a call that has logged everything leaves the blocks of the new file system. */
  lemma CallStores(ws: seq<C.World>, steps: seq<C.Step>, start: nat, m: nat, n: nat, op: nat,
                   l: Layout, fs: Fs, fs': Fs, i: int, log: set<int>)
    requires C.IsRun(ws, steps, start) && C.Alone(ws, steps, m, n, op)
    requires Laid(l) && BlocksThere(l, fs) && BlocksThere(l, fs') && |fs.inodes| == l.ninodes && 0 <= i < l.ninodes
    requires Journaled(fs, fs', i, {}, log, l.bmapStart) && i / 16 + l.inodeStart in log
    requires Shows(ws[m].mem, l, fs) && Logs(steps, m, n, op, l, fs', log)
    ensures Shows(ws[n].mem, l, fs')
  {
    hide C.IsRun, Journaled, BlockOf, LastPut, Used;
    forall b | Used(l, b) ensures b in ws[n].mem && ws[n].mem[b] == BlockOf(l, fs', b) {
      if b in log {
        var k :| m <= k && LastPut(steps, k, n, op, b, BlockOf(l, fs', b));
        LoggedBlock(ws, steps, start, k, n, op, b, BlockOf(l, fs', b));
      } else {
        UnloggedSame(l, fs, fs', i, log, b);
        C.MemKept(ws, steps, start, m, n, b);
      }
    }
  }

  /** A file-system call that logs all it changes, on its own in the log: after a crash at any point
      of it, or of its commit, and any number of cut recoveries, the disk has all files as they were
      before the call, or all as the call left them; the latter exactly when the operation is among
      those on disk. */
  lemma CallSurvivesCrash(ws: seq<C.World>, steps: seq<C.Step>, start: nat, m: nat, n: nat, op: nat, cuts: seq<nat>,
                          l: Layout, fs: Fs, fs': Fs, i: int, log: set<int>)
    requires C.IsRun(ws, steps, start) && C.Alone(ws, steps, m, n, op)
    requires Laid(l) && l.start == start && Fitting(l, fs) && Fitting(l, fs') && 0 <= i < l.ninodes
    requires Shows(ws[m].mem, l, fs)
    requires Journaled(fs, fs', i, {}, log, l.bmapStart) && i / 16 + l.inodeStart in log
    requires op in C.OnDisk(ws[n]) ==> Logs(steps, m, n, op, l, fs', log)
    ensures Mountable(ws[n].d, start)
    ensures HasFiles(Home(C.After(ws[n].d, start, cuts), start), l, if op in C.OnDisk(ws[n]) then fs' else fs)
  {
    hide C.IsRun, C.OnDisk, C.After, Journaled, Shows, BlocksThere, HasFiles, Home, Logs, Own, Mountable;
    C.OneOpIsAtomic(ws, steps, start, m, n, op, cuts);
    FittingBlocks(l, fs);
    FittingBlocks(l, fs');
    var home := Home(C.After(ws[n].d, start, cuts), start);
    if op in C.OnDisk(ws[n]) {
      CallStores(ws, steps, start, m, n, op, l, fs, fs', i, log);
      ShowsHasFiles(home, l, fs');
    } else {
      ShowsHasFiles(home, l, fs);
    }
  }

  /** For a turn of filewrite(): the file has its old bytes or all of s written at off, and every
      other file its old bytes. */
  lemma WriteSurvivesCrash(ws: seq<C.World>, steps: seq<C.Step>, start: nat, m: nat, n: nat, op: nat, cuts: seq<nat>,
                           l: Layout, fs: Fs, fs': Fs, i: int, log: set<int>, off: int, s: seq<Byte>)
    requires C.IsRun(ws, steps, start) && C.Alone(ws, steps, m, n, op)
    requires Laid(l) && l.start == start && Fitting(l, fs) && Fitting(l, fs') && 0 <= i < l.ninodes
    requires Shows(ws[m].mem, l, fs)
    requires Journaled(fs, fs', i, {}, log, l.bmapStart) && i / 16 + l.inodeStart in log
    requires V.Wrote(fs, fs', i, off, s, |s|)
    requires op in C.OnDisk(ws[n]) ==> Logs(steps, m, n, op, l, fs', log)
    ensures Mountable(ws[n].d, start)
    ensures var home := Home(C.After(ws[n].d, start, cuts), start);
      && Readable(home, l) && Shape(Decoded(home, l))
      && (forall j :: 0 <= j < l.ninodes ==> SizeOk(Decoded(home, l), j))
      && Contents(Decoded(home, l), i) ==
         (if op in C.OnDisk(ws[n]) then V.After(Contents(fs, i), off, s, |s|) else Contents(fs, i))
      && (forall j :: 0 <= j < l.ninodes && j != i ==> Contents(Decoded(home, l), j) == Contents(fs, j))
  {
    hide C.IsRun, C.OnDisk, C.After, Journaled, Shows, BlocksThere, Home, Logs, Own, Mountable;
    hide Decoded, Readable, Contents, SizeOk, Shape, V.After;
    FittingBlocks(l, fs);
    FittingBlocks(l, fs');
    CallSurvivesCrash(ws, steps, start, m, n, op, cuts, l, fs, fs', i, log);
  }

  // ----- and the commit goes through ----------------------------------------------------------------------------------

  /** commit() of a group of operations below their budgets, as filewrite's are (at most 7 of 10
      blocks), does not panic while nobody else holds a buffer. */
  method IdleCommit(dev: D.Device, ghost data: seq<Block>, ghost g: G.State, ghost steps: seq<G.Step>) returns (panic: bool)
    requires dev.Valid() && D.Pending(dev.cache, dev.lh, data) && D.PinsFrom(dev.pins, dev.lh, 0) && D.LogIdle(dev.refs, dev.start)
    requires Mountable(dev.disk, dev.start) && Head(dev.disk, dev.start) == []
    requires G.ModestlyReached(g, steps) && g.log.lh == dev.lh && dev.refs == multiset{}
    modifies dev
    ensures !panic && dev.Valid() && dev.lh == [] && dev.disk.Keys == old(dev.disk).Keys
    ensures Mountable(dev.disk, dev.start) && Home(dev.disk, dev.start) == Home(old(dev.disk), dev.start) + Updates(old(dev.lh), data)
  {
    G.ModestNeverPanics(g, steps, 0, 0);
    panic := dev.Commit(data);
  }
}
