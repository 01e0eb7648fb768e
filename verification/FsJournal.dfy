/** What a file-system operation changes, it logs (kernel/fs.c): the promise crash safety needs. */
module FsJournal {
  import opened Basics
  import opened FsBitmap
  import opened FsBlocks
  import opened FsContents

  /** From fs to fs' only inode i has changed, and every block whose contents changed, and every
      bitmap block with a changed bit, is among the blocks logged. */
  ghost predicate Journaled(fs: Fs, fs': Fs, i: int, log0: set<int>, log: set<int>, bmapStart: int) {
    && log0 <= log && |fs'.inodes| == |fs.inodes|
    && (forall j :: 0 <= j < |fs.inodes| && j != i ==> fs'.inodes[j] == fs.inodes[j])
    && fs.data.Keys <= fs'.data.Keys
    && (forall b :: b in fs.data && fs'.data[b] != fs.data[b] ==> b in log)
    && (forall b :: (b in fs.marked) != (b in fs'.marked) ==> b / BPB + bmapStart in log)
  }

  lemma JournaledSelf(fs: Fs, i: int, log: set<int>, bmapStart: int)
    ensures Journaled(fs, fs, i, log, log, bmapStart)
  {
  }

  lemma JournaledTwice(fs: Fs, fs1: Fs, fs2: Fs, i: int, log0: set<int>, log1: set<int>, log2: set<int>, bmapStart: int)
    requires Journaled(fs, fs1, i, log0, log1, bmapStart) && Journaled(fs1, fs2, i, log1, log2, bmapStart)
    ensures Journaled(fs, fs2, i, log0, log2, bmapStart)
  {
    forall b | b in fs.data && fs2.data[b] != fs.data[b] ensures b in log2 {
      assert fs1.data[b] != fs.data[b] || fs2.data[b] != fs1.data[b];
    }
  }

  /** More logged, and inode i or the owners changed as well. */
  lemma JournaledMore(fs: Fs, fs1: Fs, fs2: Fs, i: int, log0: set<int>, log1: set<int>, log2: set<int>, bmapStart: int)
    requires Journaled(fs, fs1, i, log0, log1, bmapStart) && log1 <= log2
    requires fs2.data == fs1.data && fs2.marked == fs1.marked && |fs2.inodes| == |fs1.inodes|
    requires forall j :: 0 <= j < |fs1.inodes| && j != i ==> fs2.inodes[j] == fs1.inodes[j]
    ensures Journaled(fs, fs2, i, log0, log2, bmapStart)
  {
  }

  lemma JournaledAlloc(fs: Fs, b: int, i: int, log: set<int>, bmapStart: int)
    ensures Journaled(fs, Alloc(fs, b), i, log, log + {b / BPB + bmapStart, b}, bmapStart)
  {
  }

  lemma JournaledEntry(fs: Fs, a: int, k: int, b: int, i: int, log: set<int>, bmapStart: int)
    requires HasData(fs.data, a) && 0 <= k < NINDIRECT && 0 <= b < UINT
    ensures Journaled(fs, SetEntry(fs, a, k, b), i, log, log + {a}, bmapStart)
  {
  }

  lemma JournaledData(fs: Fs, a: int, d: seq<Byte>, i: int, log: set<int>, bmapStart: int)
    ensures Journaled(fs, SetData(fs, a, d), i, log, log + {a}, bmapStart)
  {
  }

  lemma JournaledFree(fs: Fs, b: int, i: int, log: set<int>, bmapStart: int)
    ensures Journaled(fs, Freed(fs, b), i, log, log + {b / BPB + bmapStart}, bmapStart)
  {
  }
}
